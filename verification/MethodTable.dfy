/** Registered methods and signal addresses of a service point. */
module MethodTable {
  import opened Common

  datatype MethodInfo = MethodInfo(id: nat, category: string, name: string)

  /**
   What the bus runs for a method: its handler with a context, its handler without one (which refuses the message),
   or the canned reply.
   */
  datatype Binding = Bound(context: nat) | NoContext | RemovedReply

  /** How the bus takes a registration: both calls succeed, or the one or the other throws. */
  datatype Answer = Taken | AppendRefused | DataRefused

  datatype Result = Accepted | NoHandle | Duplicate | InvalidCategory | InvalidMethod | Refused

  type Table = map<(string, string), Binding>

  function Key(m: MethodInfo): (string, string) {
    (m.category, m.name)
  }

  predicate ValidCategory(category: string) {
    category != "" && category[0] == '/'
  }

  predicate ValidMethod(name: string) {
    name != "" && '/' !in name
  }

  predicate IsRegistered(methods: seq<MethodInfo>, category: string, name: string) {
    exists i :: 0 <= i < |methods| && Key(methods[i]) == (category, name)
  }

  /** One request to register; id is the address of the new method object. */
  datatype Registration = Registration(id: nat, category: string, name: string, answer: Answer)

  /** The checks of registerMethod, in its order, and then the bus. */
  function Check(handle: bool, methods: seq<MethodInfo>, r: Registration): Result {
    if !handle then NoHandle
    else if IsRegistered(methods, r.category, r.name) then Duplicate
    else if !ValidCategory(r.category) then InvalidCategory
    else if !ValidMethod(r.name) then InvalidMethod
    else if r.answer != Taken then Refused
    else Accepted
  }

  datatype Methods = Methods(list: seq<MethodInfo>, bus: Table)

  /** The method is appended first, keeping the context the name may have; then it gets its own context. */
  function Appended(bus: Table, k: (string, string), id: nat, answer: Answer): Table {
    match answer
    case AppendRefused => bus
    case DataRefused => if k in bus && bus[k].Bound? then bus else bus[k := NoContext]
    case Taken => bus[k := Bound(id)]
  }

  function Register(s: Methods, handle: bool, r: Registration): Methods {
    var k, result := (r.category, r.name), Check(handle, s.list, r);
    if result == Accepted then
      Methods(s.list + [MethodInfo(r.id, r.category, r.name)], Appended(s.bus, k, r.id, r.answer))
    else if result == Refused then s.(bus := Appended(s.bus, k, r.id, r.answer))
    else s
  }

  function RegisterAll(s: Methods, handle: bool, rs: seq<Registration>): Methods {
    if rs == [] then s else Register(RegisterAll(s, handle, Front(rs)), handle, Last(rs))
  }

  /** The destructor's loop. */
  function UnregisterAll(list: seq<MethodInfo>, bus: Table): Table {
    if list == [] then bus else UnregisterAll(Front(list), bus)[Key(Last(list)) := RemovedReply]
  }

  // ---------------------------------------------------------------- what registration keeps

  /** Names are distinct and valid, each listed method is bound to its own object, and no object is bound elsewhere. */
  ghost predicate Valid(s: Methods, others: set<nat>) {
    && (forall i, j :: 0 <= i < j < |s.list| ==> Key(s.list[i]) != Key(s.list[j]))
    && (forall m :: m in s.list ==> ValidCategory(m.category) && ValidMethod(m.name))
    && (forall m :: m in s.list ==> Key(m) in s.bus && s.bus[Key(m)] == Bound(m.id))
    && (forall k :: k in s.bus && s.bus[k].Bound? ==>
          s.bus[k].context in others || exists m :: m in s.list && Key(m) == k)
  }

  // ---------------------------------------------------------------- what registration does, from the requests alone

  ghost predicate LeadingSlash(s: string) {
    exists rest :: s == "/" + rest
  }

  predicate AnySlash(s: string) {
    exists i :: 0 <= i < |s| && s[i] == '/'
  }

  /** The request passes the checks of its names and the bus takes it. */
  ghost predicate Effective(handle: bool, r: Registration) {
    handle && LeadingSlash(r.category) && r.name != "" && !AnySlash(r.name) && r.answer == Taken
  }

  /** The first effective request for k is the one at i. */
  ghost predicate FirstFor(handle: bool, rs: seq<Registration>, i: int, k: (string, string)) {
    && 0 <= i < |rs| && (rs[i].category, rs[i].name) == k && Effective(handle, rs[i])
    && forall j :: 0 <= j < i && (rs[j].category, rs[j].name) == k ==> !Effective(handle, rs[j])
  }

  ghost predicate Requested(handle: bool, rs: seq<Registration>, k: (string, string)) {
    exists i :: FirstFor(handle, rs, i, k)
  }

  lemma NamesMeaning(category: string, name: string)
    ensures ValidCategory(category) <==> LeadingSlash(category)
    ensures ValidMethod(name) <==> name != "" && !AnySlash(name)
  {
    if category != "" && category[0] == '/' {
      assert category == "/" + category[1..];
    }
  }

  lemma {:induction false} FirstForStep(handle: bool, rs: seq<Registration>, k: (string, string))
    requires rs != []
    ensures Requested(handle, rs, k) <==>
            Requested(handle, Front(rs), k) || ((Last(rs).category, Last(rs).name) == k && Effective(handle, Last(rs)))
    ensures forall i :: 0 <= i < |rs| - 1 ==> (FirstFor(handle, rs, i, k) <==> FirstFor(handle, Front(rs), i, k))
    ensures Requested(handle, Front(rs), k) ==> !FirstFor(handle, rs, |rs| - 1, k)
    decreases |rs|, 0
  {
    var p, n := Front(rs), |rs| - 1;
    assert forall i :: 0 <= i < n ==> rs[i] == p[i];
    forall i | 0 <= i < n ensures FirstFor(handle, rs, i, k) <==> FirstFor(handle, p, i, k) {
    }
    if Requested(handle, p, k) {
      var i :| FirstFor(handle, p, i, k);
      assert FirstFor(handle, rs, i, k);
    } else if (rs[n].category, rs[n].name) == k && Effective(handle, rs[n]) {
      NoneBefore(handle, p, k);
      assert FirstFor(handle, rs, n, k);
    }
  }

  lemma {:induction false} NoneBefore(handle: bool, rs: seq<Registration>, k: (string, string))
    requires !Requested(handle, rs, k)
    ensures forall j :: 0 <= j < |rs| && (rs[j].category, rs[j].name) == k ==> !Effective(handle, rs[j])
    decreases |rs|, 1
  {
    if rs != [] {
      FirstForStep(handle, rs, k);
      NoneBefore(handle, Front(rs), k);
      assert forall j :: 0 <= j < |rs| - 1 ==> rs[j] == Front(rs)[j];
    }
  }

  /**
   After any requests, a name is registered iff an effective request named it, and then the bus runs it with the
   context of the first of those.
   */
  lemma {:induction false} RegisteredIff(bus: Table, handle: bool, rs: seq<Registration>, k: (string, string))
    ensures var s := RegisterAll(Methods([], bus), handle, rs);
      && (IsRegistered(s.list, k.0, k.1) <==> Requested(handle, rs, k))
      && (forall i :: FirstFor(handle, rs, i, k) ==> k in s.bus && s.bus[k] == Bound(rs[i].id))
  {
    if rs != [] {
      RegisteredIff(bus, handle, Front(rs), k);
      FirstForStep(handle, rs, k);
      RegisteredStep(RegisterAll(Methods([], bus), handle, Front(rs)), handle, Last(rs), k);
      assert forall i :: 0 <= i < |rs| - 1 ==> rs[i] == Front(rs)[i];
    }
  }

  lemma RegisteredStep(s: Methods, handle: bool, r: Registration, k: (string, string))
    ensures var s' := Register(s, handle, r);
      && (IsRegistered(s'.list, k.0, k.1) <==>
            IsRegistered(s.list, k.0, k.1) || ((r.category, r.name) == k && Effective(handle, r)))
      && (IsRegistered(s.list, k.0, k.1) && k in s.bus ==> k in s'.bus && s'.bus[k] == s.bus[k])
      && (!IsRegistered(s.list, k.0, k.1) && (r.category, r.name) == k && Effective(handle, r) ==>
            k in s'.bus && s'.bus[k] == Bound(r.id))
  {
    NamesMeaning(r.category, r.name);
    var s' := Register(s, handle, r);
    assert forall i :: 0 <= i < |s.list| ==> s'.list[i] == s.list[i];
    if |s'.list| > |s.list| {
      assert Key(s'.list[|s.list|]) == (r.category, r.name);
    }
    if IsRegistered(s.list, k.0, k.1) {
      var i :| 0 <= i < |s.list| && Key(s.list[i]) == k;
      assert Key(s'.list[i]) == k;
    }
  }

  /** The result of a request after any requests: the first of its conditions that fails. */
  lemma ResultIs(bus: Table, handle: bool, rs: seq<Registration>, r: Registration)
    ensures Check(handle, RegisterAll(Methods([], bus), handle, rs).list, r) ==
            if !handle then NoHandle
            else if Requested(handle, rs, (r.category, r.name)) then Duplicate
            else if !LeadingSlash(r.category) then InvalidCategory
            else if r.name == "" || AnySlash(r.name) then InvalidMethod
            else if r.answer != Taken then Refused
            else Accepted
  {
    RegisteredIff(bus, handle, rs, (r.category, r.name));
    NamesMeaning(r.category, r.name);
  }

  // ---------------------------------------------------------------- what registration keeps

  /** From a bus whose contexts all belong to others, every sequence of registrations keeps the table valid. */
  lemma {:induction false} RegistrationsValid(bus: Table, others: set<nat>, handle: bool, rs: seq<Registration>)
    requires forall k :: k in bus && bus[k].Bound? ==> bus[k].context in others
    ensures Valid(RegisterAll(Methods([], bus), handle, rs), others)
  {
    if rs != [] {
      var s, r := RegisterAll(Methods([], bus), handle, Front(rs)), Last(rs);
      RegistrationsValid(bus, others, handle, Front(rs));
      RegisterKeepsValid(s, others, handle, r);
    }
  }

  lemma RegisterKeepsValid(s: Methods, others: set<nat>, handle: bool, r: Registration)
    requires Valid(s, others)
    ensures Valid(Register(s, handle, r), others)
  {
    if Check(handle, s.list, r) == Refused {
      assert !IsRegistered(s.list, r.category, r.name);
      assert forall m :: m in s.list ==> Key(m) != (r.category, r.name);
    } else if Check(handle, s.list, r) == Accepted {
      var info := MethodInfo(r.id, r.category, r.name);
      var s' := Register(s, handle, r);
      assert forall m :: m in s'.list <==> m in s.list || m == info;
      assert forall m :: m in s.list ==> Key(m) != Key(info);
      forall k | k in s'.bus && s'.bus[k].Bound?
        ensures s'.bus[k].context in others || exists m :: m in s'.list && Key(m) == k
      {
        if k == Key(info) {
          assert info in s'.list;
        } else if s.bus[k].context !in others {
          var m :| m in s.list && Key(m) == k;
          assert m in s'.list;
        }
      }
    }
  }

  lemma {:induction false} UnregisteredIff(list: seq<MethodInfo>, bus: Table, k: (string, string))
    ensures var after := UnregisterAll(list, bus);
      if exists m :: m in list && Key(m) == k then k in after && after[k] == RemovedReply
      else (k in after <==> k in bus) && (k in bus ==> after[k] == bus[k])
  {
    if list != [] {
      UnregisteredIff(Front(list), bus, k);
      assert list == Front(list) + [Last(list)];
      assert forall m :: m in list <==> m in Front(list) || m == Last(list);
    }
  }

  /**
   No stale context: after any registrations, refused ones included, and the destructor, every context left on the
   bus belongs to someone else, every name this service point registered answers with the canned reply, and no other
   name has changed, unless the bus took the method of that name but refused its context.
   */
  lemma NoStaleContext(bus: Table, others: set<nat>, handle: bool, rs: seq<Registration>, k: (string, string))
    requires forall n :: n in bus && bus[n].Bound? ==> bus[n].context in others
    ensures var s := RegisterAll(Methods([], bus), handle, rs);
      var after := UnregisterAll(s.list, s.bus);
      && (k in after && after[k].Bound? ==> after[k].context in others)
      && (IsRegistered(s.list, k.0, k.1) ==> k in after && after[k] == RemovedReply)
      && (!IsRegistered(s.list, k.0, k.1) ==> Unlisted(bus, after, handle, rs, k))
  {
    var s := RegisterAll(Methods([], bus), handle, rs);
    RegistrationsValid(bus, others, handle, rs);
    UnregisteredIff(s.list, s.bus, k);
    OthersUntouched(bus, handle, rs, k);
    if m :| m in s.list && Key(m) == k {
      var i :| 0 <= i < |s.list| && s.list[i] == m;
      assert IsRegistered(s.list, k.0, k.1);
    }
  }

  ghost predicate Same(bus: Table, after: Table, k: (string, string)) {
    (k in after <==> k in bus) && (k in bus ==> after[k] == bus[k])
  }

  /**
   A name that is not registered: unchanged, unless the bus took its method and refused the context; then the name
   has no context if it had none before.
   */
  ghost predicate Unlisted(bus: Table, after: Table, handle: bool, rs: seq<Registration>, k: (string, string)) {
    if (exists i :: 0 <= i < |rs| && RefusedContext(handle, rs[i], k)) && !(k in bus && bus[k].Bound?)
    then k in after && after[k] == NoContext
    else Same(bus, after, k)
  }

  ghost predicate RefusedContext(handle: bool, r: Registration, k: (string, string)) {
    && (r.category, r.name) == k && r.answer == DataRefused
    && handle && LeadingSlash(r.category) && r.name != "" && !AnySlash(r.name)
  }

  lemma {:induction false} OthersUntouched(bus: Table, handle: bool, rs: seq<Registration>, k: (string, string))
    ensures var s := RegisterAll(Methods([], bus), handle, rs);
      !IsRegistered(s.list, k.0, k.1) ==> Unlisted(bus, s.bus, handle, rs, k)
  {
    if rs != [] {
      OthersUntouched(bus, handle, Front(rs), k);
      var s, s' := RegisterAll(Methods([], bus), handle, Front(rs)), RegisterAll(Methods([], bus), handle, rs);
      if IsRegistered(s.list, k.0, k.1) {
        var i :| 0 <= i < |s.list| && Key(s.list[i]) == (k.0, k.1);
        assert Key(s'.list[i]) == (k.0, k.1);
      } else if !IsRegistered(s'.list, k.0, k.1) {
        StillUnlisted(bus, s, s', handle, rs, k);
      }
    }
  }

  lemma StillUnlisted(bus: Table, s: Methods, s': Methods, handle: bool, rs: seq<Registration>, k: (string, string))
    requires rs != [] && s' == Register(s, handle, Last(rs))
    requires !IsRegistered(s.list, k.0, k.1) && !IsRegistered(s'.list, k.0, k.1)
    requires Unlisted(bus, s.bus, handle, Front(rs), k)
    ensures Unlisted(bus, s'.bus, handle, rs, k)
  {
    var r, n := Last(rs), |rs| - 1;
    NamesMeaning(r.category, r.name);
    if Check(handle, s.list, r) == Accepted {
      assert Key(s'.list[|s.list|]) == (r.category, r.name);
    }
    assert forall i :: 0 <= i < n ==> Front(rs)[i] == rs[i];
    assert (exists i :: 0 <= i < |rs| && RefusedContext(handle, rs[i], k)) <==>
           (exists i :: 0 <= i < n && RefusedContext(handle, Front(rs)[i], k)) || RefusedContext(handle, rs[n], k);
  }

  // ---------------------------------------------------------------- signal addresses

  const PREFIX := "luna://com.bogusuri"

  function SignalUri(category: string, name: string): string {
    PREFIX + category + "/" + name
  }

  /** The position of the last '/', or |s|. */
  function LastSlash(s: string): (r: nat)
    ensures r <= |s|
    ensures r < |s| ==> s[r] == '/'
    ensures forall i :: 0 <= i < |s| && (r == |s| || i > r) ==> s[i] != '/'
  {
    if s == [] then 0
    else if Last(s) == '/' then |s| - 1
    else
      var r := LastSlash(Front(s));
      if r == |s| - 1 then |s| else r
  }

  /** Category and method are recovered by splitting at the last slash. */
  lemma SignalUriSplits(category: string, name: string)
    requires ValidMethod(name)
    ensures var uri := SignalUri(category, name);
      var i := LastSlash(uri);
      |PREFIX| <= i < |uri| && uri[|PREFIX|..i] == category && uri[i + 1..] == name
  {
    var uri := SignalUri(category, name);
    var n := |PREFIX| + |category|;
    assert uri[n] == '/';
    assert forall i :: n < i < |uri| ==> uri[i] == name[i - n - 1];
    assert LastSlash(uri) == n;
    assert uri[|PREFIX|..n] == category && uri[n + 1..] == name;
  }

  /** So different signals have different addresses. */
  lemma SignalUriInjective(c1: string, m1: string, c2: string, m2: string)
    requires ValidMethod(m1) && ValidMethod(m2) && SignalUri(c1, m1) == SignalUri(c2, m2)
    ensures c1 == c2 && m1 == m2
  {
    SignalUriSplits(c1, m1);
    SignalUriSplits(c2, m2);
  }
}
