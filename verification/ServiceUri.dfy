/** The service name inside a URI, as `subscribe` cuts it out. */
module ServiceUri {
  import opened Common

  /** Searching a substring from a position: the first match there or later. */
  function Find(s: string, pattern: string, from: nat): (r: Option<nat>)
    ensures r.Some? ==> from <= r.value && OccursAt(s, pattern, r.value)
    ensures r.Some? ==> forall i :: from <= i < r.value ==> !OccursAt(s, pattern, i)
    ensures r.None? ==> forall i :: from <= i ==> !OccursAt(s, pattern, i)
    decreases if from <= |s| then |s| - from + 1 else 0
  {
    if from > |s| then None
    else if OccursAt(s, pattern, from) then Some(from)
    else Find(s, pattern, from + 1)
  }

  predicate OccursAt(s: string, pattern: string, i: nat) {
    i + |pattern| <= |s| && s[i..i + |pattern|] == pattern
  }

  /** Where the second search starts; the position "not found" plus three wraps around to two. */
  function SecondStart(first: Option<nat>): nat {
    if first.Some? then first.value + 3 else 2
  }

  function ServiceName(uri: string): Option<string> {
    var first := Find(uri, "://", 0);
    var second := Find(uri, "/", SecondStart(first));
    if first.None? || second.None? then None
    else Some(uri[first.value + 3..second.value])
  }

  /** scheme "://" name "/" rest, with the first "://" and no slash in the name. */
  ghost predicate Decomposes(uri: string, scheme: string, name: string, rest: string) {
    && uri == scheme + "://" + name + "/" + rest
    && '/' !in name
    && forall i :: 0 <= i < |scheme| ==> !OccursAt(uri, "://", i)
  }

  lemma Positions(uri: string, scheme: string, name: string, rest: string)
    requires Decomposes(uri, scheme, name, rest)
    ensures Find(uri, "://", 0) == Some(|scheme|)
    ensures Find(uri, "/", |scheme| + 3) == Some(|scheme| + 3 + |name|)
    ensures uri[..|scheme|] == scheme && uri[|scheme| + 3..|scheme| + 3 + |name|] == name
    ensures uri[|scheme| + 4 + |name|..] == rest
  {
    Slices(scheme, name, rest);
    FirstMatch(uri, "://", 0, |scheme|);
    SlashPosition(uri, |scheme| + 3, name);
  }

  lemma SlashPosition(uri: string, start: nat, name: string)
    requires start + |name| < |uri| && uri[start..start + |name|] == name && '/' !in name
    requires uri[start + |name|..start + |name| + 1] == "/"
    ensures Find(uri, "/", start) == Some(start + |name|)
  {
    NoSlash(uri, start, name);
    FirstMatch(uri, "/", start, start + |name|);
  }

  /** Where the parts of a composed URI lie. */
  lemma Slices(scheme: string, name: string, rest: string)
    ensures var uri := scheme + "://" + name + "/" + rest;
      && uri[..|scheme|] == scheme
      && uri[|scheme|..|scheme| + 3] == "://"
      && uri[|scheme| + 3..|scheme| + 3 + |name|] == name
      && uri[|scheme| + 3 + |name|..|scheme| + 4 + |name|] == "/"
      && uri[|scheme| + 4 + |name|..] == rest
  {
    var head := scheme + "://";
    Parts(scheme, "://", name + "/" + rest);
    assert scheme + "://" + (name + "/" + rest) == head + name + "/" + rest;
    Parts(head, name, "/" + rest);
    assert head + name + ("/" + rest) == head + name + "/" + rest;
    Parts(head + name, "/", rest);
  }

  /** Cutting the middle out of a string. */
  lemma Parts(a: string, b: string, c: string)
    ensures var s := a + b + c;
      s[..|a|] == a && s[|a|..|a| + |b|] == b && s[|a| + |b|..] == c
  {
  }

  lemma FirstMatch(s: string, pattern: string, from: nat, i: nat)
    requires from <= i && OccursAt(s, pattern, i) && forall j :: from <= j < i ==> !OccursAt(s, pattern, j)
    ensures Find(s, pattern, from) == Some(i)
  {
  }

  lemma NoSlash(uri: string, start: nat, name: string)
    requires start + |name| <= |uri| && uri[start..start + |name|] == name && '/' !in name
    ensures forall i :: start <= i < start + |name| ==> !OccursAt(uri, "/", i)
  {
    forall i | start <= i < start + |name| ensures !OccursAt(uri, "/", i) {
      assert uri[i] == name[i - start];
      assert uri[i..i + 1] == [uri[i]];
    }
  }

  /** Accepted exactly when it decomposes, and the watched service is the name of the decomposition. */
  lemma AcceptedIffDecomposes(uri: string, name: string)
    ensures ServiceName(uri) == Some(name) <==> exists scheme, rest :: Decomposes(uri, scheme, name, rest)
  {
    if ServiceName(uri) == Some(name) {
      var scheme, rest := Decomposition(uri, name);
      assert Decomposes(uri, scheme, name, rest);
    }
    forall scheme, rest | Decomposes(uri, scheme, name, rest) ensures ServiceName(uri) == Some(name) {
      Positions(uri, scheme, name, rest);
    }
  }

  lemma Decomposition(uri: string, name: string) returns (scheme: string, rest: string)
    requires ServiceName(uri) == Some(name)
    ensures Decomposes(uri, scheme, name, rest)
  {
    var first := Find(uri, "://", 0).value;
    var second := Find(uri, "/", first + 3).value;
    scheme, rest := uri[..first], uri[second + 1..];
    assert uri[first..first + 3] == "://" && uri[second..second + 1] == "/";
    assert uri == scheme + uri[first..first + 3] + name + uri[second..second + 1] + rest;
    NoSlashBetween(uri, first + 3, second);
  }

  lemma NoSlashBetween(uri: string, start: nat, stop: nat)
    requires start <= stop <= |uri| && forall i :: start <= i < stop ==> !OccursAt(uri, "/", i)
    ensures '/' !in uri[start..stop]
  {
    forall i | start <= i < stop ensures uri[i] != '/' {
      assert !OccursAt(uri, "/", i) && uri[i..i + 1] == [uri[i]];
    }
  }

  lemma DecompositionUnique(uri: string, s1: string, n1: string, r1: string, s2: string, n2: string, r2: string)
    requires Decomposes(uri, s1, n1, r1) && Decomposes(uri, s2, n2, r2)
    ensures s1 == s2 && n1 == n2 && r1 == r2
  {
    Positions(uri, s1, n1, r1);
    Positions(uri, s2, n2, r2);
  }
}
