/** The parser accepts exactly what the specification accepts, with exactly the specified destinations. */
module JsonProofs {
  import opened Common
  import opened Double
  import opened JsonDecoding
  import opened JsonSpec

  // ---------------------------------------------------------------- chains of modifiers

  /** What a chain does to a fresh context, whatever the order of its modifiers. */
  lemma ChainMeaning(c: Context, ms: seq<Modifier>)
    requires !c.optional && !c.allowNull
    ensures var r := Chain(c, ms);
      && r.name == c.name && r.read == c.read && r.isNull == c.isNull
      && (r.optional <==> IsOptional(ms)) && (r.allowNull <==> AllowsNull(ms))
      && (c.read ==> r.dest == c.dest)
      && (!c.read ==> Defaulted(ms, c.dest, r.dest))
      && (r.errors == [] <==> c.errors == [] && (c.read ==> Admitted(ms, c.dest)))
  {
    ChainFlags(c, ms);
    ChainDestination(c, ms);
    ChainErrors(c, ms);
  }

  lemma {:induction false} ChainFlags(c: Context, ms: seq<Modifier>)
    requires !c.optional && !c.allowNull
    ensures var r := Chain(c, ms);
      && r.name == c.name && r.read == c.read && r.isNull == c.isNull
      && (r.optional <==> IsOptional(ms)) && (r.allowNull <==> AllowsNull(ms))
  {
    if ms != [] {
      ChainFlags(c, Front(ms));
      LastOptionalWins(ms);
      LastAllowNullWins(ms);
    }
  }

  lemma {:induction false} ChainDestination(c: Context, ms: seq<Modifier>)
    ensures var r := Chain(c, ms);
      r.read == c.read && if c.read then r.dest == c.dest else Defaulted(ms, c.dest, r.dest)
  {
    if ms != [] {
      ChainDestination(c, Front(ms));
      LastDefaultWins(ms, c.dest, Chain(c, Front(ms)).dest);
    }
  }

  lemma {:induction false} ChainErrors(c: Context, ms: seq<Modifier>)
    ensures Chain(c, ms).errors == [] <==> c.errors == [] && (c.read ==> Admitted(ms, c.dest))
  {
    if ms != [] {
      ChainErrors(c, Front(ms));
      ChainDestination(c, Front(ms));
      AdmittedLast(ms, c.dest);
      if c.read {
        CheckIs(Chain(c, Front(ms)), Last(ms));
      }
    }
  }

  /** The check at i fails, and none before it does. */
  ghost predicate FirstFailing(ms: seq<Modifier>, d: Value, i: int) {
    0 <= i < |ms| && !Passes(ms[i], d) && forall j :: 0 <= j < i ==> Passes(ms[j], d)
  }

  /** If a value that was read fails a check, the first error of the chain is that of the first failing check. */
  lemma {:induction false} ChainFirstError(c: Context, ms: seq<Modifier>, i: int)
    requires c.read && c.errors == [] && FirstFailing(ms, c.dest, i)
    ensures Chain(c, ms).errors != [] && Chain(c, ms).errors[0] == AtField(c.name, CheckReason(ms[i]))
  {
    var p := Chain(c, Front(ms));
    ChainDestination(c, Front(ms));
    ChainNamed(c, Front(ms));
    CheckIs(p, Last(ms));
    if i < |ms| - 1 {
      ChainFirstError(c, Front(ms), i);
    } else {
      ChainErrors(c, Front(ms));
    }
  }

  lemma {:induction false} ChainNamed(c: Context, ms: seq<Modifier>)
    ensures Chain(c, ms).name == c.name && Chain(c, ms).isNull == c.isNull
  {
    if ms != [] {
      ChainNamed(c, Front(ms));
    }
  }

  /** One check of a value that was read records an error iff the value does not pass. */
  lemma CheckIs(c: Context, m: Modifier)
    requires c.read
    ensures Passes(m, c.dest) ==> Apply(c, m).errors == c.errors
    ensures !Passes(m, c.dest) ==> Apply(c, m).errors == c.errors + [AtField(c.name, CheckReason(m))]
  {
    if m.Min? {
      LessIs(c.dest, m.value);
    } else if m.Max? {
      LessIs(m.value, c.dest);
    }
  }

  lemma AdmittedLast(ms: seq<Modifier>, d: Value)
    requires ms != []
    ensures Admitted(ms, d) <==> Admitted(Front(ms), d) && Passes(Last(ms), d)
  {
    assert ms == Front(ms) + [Last(ms)];
    if Admitted(ms, d) {
      assert forall i :: 0 <= i < |ms| - 1 ==> Front(ms)[i] == ms[i];
    }
  }

  lemma LastOptionalWins(ms: seq<Modifier>)
    requires ms != []
    ensures IsOptional(ms) <==> if Last(ms).Optional? then Last(ms).on else IsOptional(Front(ms))
  {
    var p, n := Front(ms), |ms| - 1;
    assert forall i :: 0 <= i < n ==> ms[i] == p[i];
    if IsOptional(p) && !ms[n].Optional? {
      var i :| 0 <= i < n && p[i] == Optional(true) && forall j :: i < j < n ==> !p[j].Optional?;
      assert ms[i] == Optional(true);
    }
  }

  lemma LastAllowNullWins(ms: seq<Modifier>)
    requires ms != []
    ensures AllowsNull(ms) <==> if Last(ms).AllowNull? then Last(ms).on else AllowsNull(Front(ms))
  {
    var p, n := Front(ms), |ms| - 1;
    assert forall i :: 0 <= i < n ==> ms[i] == p[i];
    if AllowsNull(p) && !ms[n].AllowNull? {
      var i :| 0 <= i < n && p[i] == AllowNull(true) && forall j :: i < j < n ==> !p[j].AllowNull?;
      assert ms[i] == AllowNull(true);
    }
  }

  lemma LastDefaultWins(ms: seq<Modifier>, cur: Value, d: Value)
    requires ms != []
    ensures Last(ms).DefaultValue? ==> Defaulted(ms, cur, Last(ms).value)
    ensures !Last(ms).DefaultValue? && Defaulted(Front(ms), cur, d) ==> Defaulted(ms, cur, d)
  {
    var p, n := Front(ms), |ms| - 1;
    if ms[n].DefaultValue? {
      assert LastDefault(ms, n, ms[n].value);
    } else if i :| LastDefault(p, i, d) {
      assert LastDefault(ms, i, d);
    }
  }

  lemma DefaultedUnique(ms: seq<Modifier>, cur: Value, d: Value, e: Value)
    requires Defaulted(ms, cur, d) && Defaulted(ms, cur, e)
    ensures d == e
  {
    if i, j :| LastDefault(ms, i, d) && LastDefault(ms, j, e) {
      assert i == j;
    }
  }

  /** What the context returned by a get function must be for its chain to accept and leave d. */
  ghost predicate Accepts(c: Context, ms: seq<Modifier>, d: Value) {
    && c.errors == []
    && if c.read then Admitted(ms, d) && d == c.dest
       else IsOptional(ms) && (c.isNull ==> AllowsNull(ms)) && Defaulted(ms, c.dest, d)
  }

  /** Chain then destructor: acceptance and destination from the context the get function returned. */
  lemma FinishedMeaning(c: Context, ms: seq<Modifier>, d: Value)
    requires !c.optional && !c.allowNull
    ensures var r := Finish(Chain(c, ms));
      (r.errors == [] && r.dest == d) <==> Accepts(c, ms, d)
  {
    ChainMeaning(c, ms);
    if !c.read && Defaulted(ms, c.dest, d) {
      DefaultedUnique(ms, c.dest, d, Chain(c, ms).dest);
    }
  }

  // ---------------------------------------------------------------- order

  /** The comparison of destinations is the order of their type. */
  lemma LessIs(a: Value, b: Value)
    ensures Less(a, b) <==> Below(a, b)
  {
    OrderIs(a, b);
  }

  lemma {:induction false} OrderIs(a: Value, b: Value)
    ensures Order(a, b) < 0 <==> Compares(a, b, true)
    ensures Order(a, b) > 0 <==> Compares(a, b, false)
    decreases a
  {
    match (a, b)
    case (VStr(x), VStr(y)) =>
      TextLessIs(x, y);
      TextLessIs(y, x);
      NotBoth(x, y);
    case (VArr(xs), VArr(ys)) =>
      forall j | 0 <= j < |xs| && j < |ys| ensures OrderHolds(xs[j], ys[j]) {
        OrderIs(xs[j], ys[j]);
      }
      ItemsOrderIs(xs, ys);
    case _ =>
  }

  ghost predicate OrderHolds(a: Value, b: Value) {
    (Order(a, b) < 0 <==> Compares(a, b, true)) && (Order(a, b) > 0 <==> Compares(a, b, false))
  }

  lemma {:induction false} ItemsOrderIs(xs: seq<Value>, ys: seq<Value>)
    requires forall j :: 0 <= j < |xs| && j < |ys| ==> OrderHolds(xs[j], ys[j])
    ensures ItemsOrder(xs, ys) < 0 <==> ItemsCompare(xs, ys, true)
    ensures ItemsOrder(xs, ys) > 0 <==> ItemsCompare(xs, ys, false)
  {
    if xs != [] && ys != [] {
      assert OrderHolds(xs[0], ys[0]);
      ItemsOrderIs(xs[1..], ys[1..]);
    }
  }

  ghost predicate Equivalent(x: Value, y: Value) {
    !Compares(x, y, true) && !Compares(x, y, false)
  }

  /** xs and ys are equivalent up to i, where xs has the lesser item or ends. */
  ghost predicate DifferAt(xs: seq<Value>, ys: seq<Value>, i: int) {
    && 0 <= i <= |xs| && i < |ys|
    && (forall j :: 0 <= j < i ==> Equivalent(xs[j], ys[j]))
    && (i == |xs| || Below(xs[i], ys[i]))
  }

  /** One vector is less than another iff it is at their first difference. */
  lemma {:induction false} VectorsByFirstDifference(xs: seq<Value>, ys: seq<Value>)
    ensures Below(VArr(xs), VArr(ys)) <==> exists i :: DifferAt(xs, ys, i)
  {
    assert Below(VArr(xs), VArr(ys)) <==> ItemsCompare(xs, ys, true);
    if xs != [] && ys != [] {
      VectorsByFirstDifference(xs[1..], ys[1..]);
      HeadsNotBoth(xs[0], ys[0]);
      if Below(xs[0], ys[0]) {
        assert DifferAt(xs, ys, 0);
      }
      if i :| DifferAt(xs[1..], ys[1..], i) && Equivalent(xs[0], ys[0]) {
        DifferLater(xs, ys, i + 1);
        assert DifferAt(xs, ys, i + 1);
      }
      if i :| DifferAt(xs, ys, i) && i > 0 {
        DifferLater(xs, ys, i);
        assert DifferAt(xs[1..], ys[1..], i - 1);
      }
    } else if xs == [] && ys != [] {
      assert DifferAt(xs, ys, 0);
    }
  }

  lemma HeadsNotBoth(x: Value, y: Value)
    ensures !(Compares(x, y, true) && Compares(x, y, false))
  {
    OrderIs(x, y);
  }

  lemma DifferLater(xs: seq<Value>, ys: seq<Value>, i: int)
    requires xs != [] && ys != [] && i > 0
    ensures DifferAt(xs, ys, i) <==> Equivalent(xs[0], ys[0]) && DifferAt(xs[1..], ys[1..], i - 1)
  {
    var xt, yt := xs[1..], ys[1..];
    assert forall j :: 0 < j < |xs| ==> xs[j] == xt[j - 1];
    assert forall j :: 0 < j < |ys| ==> ys[j] == yt[j - 1];
    if Equivalent(xs[0], ys[0]) && DifferAt(xt, yt, i - 1) {
      forall j | 0 <= j < i ensures Equivalent(xs[j], ys[j]) {
        assert j > 0 ==> Equivalent(xt[j - 1], yt[j - 1]);
      }
    }
    if DifferAt(xs, ys, i) {
      forall j | 0 <= j < i - 1 ensures Equivalent(xt[j], yt[j]) {
        assert Equivalent(xs[j + 1], ys[j + 1]);
      }
      assert Equivalent(xs[0], ys[0]);
    }
  }

  lemma {:induction false} TextLessIs(a: string, b: string)
    ensures StringLess(a, b) <==> TextBelow(a, b)
  {
    if b == [] || a == [] {
      assert b != [] ==> TextBelowAt(a, b, 0);
    } else {
      TextLessIs(a[1..], b[1..]);
      if a[0] < b[0] {
        assert TextBelowAt(a, b, 0);
      }
      if i :| a[0] == b[0] && TextBelowAt(a[1..], b[1..], i) {
        assert a[..i + 1] == [a[0]] + a[1..][..i] && b[..i + 1] == [b[0]] + b[1..][..i];
        assert TextBelowAt(a, b, i + 1);
      }
      if i :| TextBelowAt(a, b, i) && i > 0 {
        assert a[0] == a[..i][0] && b[0] == b[..i][0];
        assert a[1..][..i - 1] == a[..i][1..] && b[1..][..i - 1] == b[..i][1..];
        assert TextBelowAt(a[1..], b[1..], i - 1);
      }
    }
  }

  lemma {:induction false} NotBoth(a: string, b: string)
    ensures !(StringLess(a, b) && StringLess(b, a))
  {
    if a != [] && b != [] {
      NotBoth(a[1..], b[1..]);
    }
  }

  // ---------------------------------------------------------------- numbers

  lemma TruncateExact(r: real, n: int)
    ensures Truncate(r) as real == r && Truncate(r) == n <==> r == n as real
  {
  }

  /** Why a number is refused by an integer type with these bounds, if it is. */
  ghost function IntegerRefusal(number: Option<Option<real>>, lo: int, hi: int): Option<Reason> {
    match number
    case None => Some(NotANumber)
    case Some(None) => Some(NotNumeric)
    case Some(Some(r)) =>
      if r <= (lo - 1) as real || r >= (hi + 1) as real then Some(OutOfBounds)
      else if r == r.Floor as real then None
      else Some(Fractional)
  }

  /** Both conversions of integers report the reason for refusing. */
  lemma IntegerRefused(env: Env, v: JValue, lo: int, hi: int, wideLo: int, wideHi: int, cur: Value)
    requires wideLo <= lo <= 0 <= hi <= wideHi
    ensures DecodeNarrow(env, v, lo, hi, wideLo, wideHi, cur).thrown == IntegerRefusal(NumberOf(env, v), lo, hi)
    ensures DecodeDirect(env, v, lo, hi, cur).thrown == IntegerRefusal(NumberOf(env, v), lo, hi)
  {
    var src := NumberOf(env, v);
    if src.Some? && src.value.Some? {
      TruncatedWithin(src.value.value, lo, hi);
      TruncatedWithin(src.value.value, wideLo, wideHi);
    }
  }

  lemma TruncatedWithin(r: real, lo: int, hi: int)
    requires lo <= 0 <= hi
    ensures Truncate(r) < lo <==> r <= (lo - 1) as real
    ensures Truncate(r) > hi <==> r >= (hi + 1) as real
    ensures Truncate(r) as real == r <==> r == r.Floor as real
  {
  }

  /** Two conversions and a range check accept exactly the integers in range. */
  lemma NarrowExact(env: Env, v: JValue, lo: int, hi: int, wideLo: int, wideHi: int, cur: Value, d: Value)
    requires wideLo <= lo <= hi <= wideHi
    ensures IntegerIn(env, v, lo, hi, d) <==>
            DecodeNarrow(env, v, lo, hi, wideLo, wideHi, cur) == Outcome(d, None)
    ensures DecodeNarrow(env, v, lo, hi, wideLo, wideHi, cur).thrown.Some? ==>
            DecodeNarrow(env, v, lo, hi, wideLo, wideHi, cur).dest == cur
  {
    var src := Numeric(env, v);
    if src.Some? && src.value.Some? {
      TruncateExact(src.value.value, if d.VInt? then d.n else 0);
    }
  }

  /** n is r without its fraction, or the bound that r passes. */
  ghost predicate ClosestTowardsZero(r: real, lo: int, hi: int, n: int) {
    && lo <= n <= hi
    && (r >= (hi + 1) as real ==> n == hi)
    && (r <= (lo - 1) as real ==> n == lo)
    && ((lo - 1) as real < r < (hi + 1) as real ==>
          if r >= 0.0 then n as real <= r < (n + 1) as real else (n - 1) as real < r <= n as real)
  }

  /** Straight into the destination: exactly the integers in range are accepted, but a refused number is stored too. */
  lemma DirectExact(env: Env, v: JValue, lo: int, hi: int, cur: Value, d: Value)
    requires lo <= 0 <= hi
    ensures IntegerIn(env, v, lo, hi, d) <==> DecodeDirect(env, v, lo, hi, cur) == Outcome(d, None)
    ensures var o := DecodeDirect(env, v, lo, hi, cur);
      && (Numeric(env, v) == None ==> o.dest == cur)
      && (Numeric(env, v) == Some(None) ==> o.dest == VInt(0))
      && (forall r :: Numeric(env, v) == Some(Some(r)) ==> o.dest.VInt? && ClosestTowardsZero(r, lo, hi, o.dest.n))
  {
    var src := Numeric(env, v);
    if src.Some? && src.value.Some? {
      TruncateExact(src.value.value, if d.VInt? then d.n else 0);
    }
  }

  /** What reading a double does in every case. */
  lemma DoubleExact(env: Env, v: JValue, cur: Value)
    ensures DecodeDouble(env, v, cur) ==
            match NumberOf(env, v)
            case None => Outcome(cur, Some(NotANumber))
            case Some(None) => Outcome(VReal(0.0), Some(NotNumeric))
            case Some(Some(r)) => Outcome(VReal(env.rounded(r)), if env.beyond(r) then Some(OutOfBounds) else None)
  {
  }

  lemma CastExact(val: real, overflow: bool, cur: Value, d: Value)
    ensures CastU64(val, overflow, cur) == Outcome(d, None) <==>
            && !overflow
            && val == val.Floor as real && 0 <= val.Floor <= TWO_TO_64
            && d == if val.Floor == TWO_TO_64 then VUndefined else VInt(val.Floor)
    ensures CastU64(val, overflow, cur).thrown.Some? ==> CastU64(val, overflow, cur).dest == cur
  {
  }

  lemma U64Exact(env: Env, v: JValue, cur: Value, d: Value)
    ensures RoundedUnsigned(env, v, d) <==> DecodeU64(env, v, cur) == Outcome(d, None)
    ensures DecodeU64(env, v, cur).thrown.Some? ==> DecodeU64(env, v, cur).dest == cur
  {
    var src := Numeric(env, v);
    if src.Some? && src.value.Some? {
      var r := src.value.value;
      CastExact(env.rounded(r), env.beyond(r), cur, d);
      RoundsToFloor(env, r, d);
    }
  }

  /** Why a number is refused by the unsigned 64-bit path, if it is. */
  ghost function UnsignedRefusal(env: Env, number: Option<Option<real>>): Option<Reason> {
    match number
    case None => Some(NotANumber)
    case Some(None) => Some(NotNumeric)
    case Some(Some(r)) =>
      var val := env.rounded(r);
      if env.beyond(r) || val < 0.0 || val > 18446744073709551616.0 then Some(OutOfBounds)
      else if val == val.Floor as real then None
      else Some(Fractional)
  }

  /** Why a value is refused by a type other than an object or a client's own, if it is. */
  ghost function Refusal(env: Env, s: Shape, v: JValue): Option<Reason> {
    var number := NumberOf(env, v);
    match s
    case U8 => IntegerRefusal(number, 0, 255)
    case I8 => IntegerRefusal(number, -128, 127)
    case U16 => IntegerRefusal(number, 0, 65535)
    case I16 => IntegerRefusal(number, -32768, 32767)
    case I32 => IntegerRefusal(number, -2147483648, 2147483647)
    case U32 => IntegerRefusal(number, 0, 4294967295)
    case I64 => IntegerRefusal(number, -9223372036854775808, 9223372036854775807)
    case U64 => UnsignedRefusal(env, number)
    case Dbl =>
      if number == None then Some(NotANumber)
      else if number == Some(None) then Some(NotNumeric)
      else if env.beyond(number.value.value) then Some(OutOfBounds)
      else None
    case Bool => if v.JBool? then None else Some(NotABoolean)
    case Str => if v.JStr? then None else Some(NotAString)
    case _ => None
  }

  /** Every type reports the reason for refusing a value. */
  lemma Refused(env: Env, s: Shape, v: JValue, cur: Value)
    requires !s.Obj? && !s.Custom?
    ensures Decode(env, s, v, cur).thrown == Refusal(env, s, v)
  {
    match s
    case U8 => IntegerRefused(env, v, 0, 255, I32_MIN, I32_MAX, cur);
    case I8 => IntegerRefused(env, v, -128, 127, I32_MIN, I32_MAX, cur);
    case U16 => IntegerRefused(env, v, 0, 65535, I32_MIN, I32_MAX, cur);
    case I16 => IntegerRefused(env, v, -32768, 32767, I32_MIN, I32_MAX, cur);
    case I32 => IntegerRefused(env, v, -2147483648, 2147483647, I64_MIN, I64_MAX, cur);
    case U32 => IntegerRefused(env, v, 0, 4294967295, I64_MIN, I64_MAX, cur);
    case I64 => IntegerRefused(env, v, -9223372036854775808, 9223372036854775807, I64_MIN, I64_MAX, cur);
    case U64 => UnsignedRefused(env, v, cur);
    case _ =>
  }

  lemma UnsignedRefused(env: Env, v: JValue, cur: Value)
    ensures DecodeU64(env, v, cur).thrown == UnsignedRefusal(env, NumberOf(env, v))
  {
  }

  lemma RoundsToFloor(env: Env, r: real, d: Value)
    ensures var val := env.rounded(r);
      (exists n :: RoundsTo(env, r, n, d)) <==>
      (&& val == val.Floor as real && 0 <= val.Floor <= TWO_TO_64
       && d == if val.Floor == TWO_TO_64 then VUndefined else VInt(val.Floor))
  {
    var val := env.rounded(r);
    if val == val.Floor as real && 0 <= val.Floor <= TWO_TO_64 {
      assert RoundsTo(env, r, val.Floor, d) <==> d == if val.Floor == TWO_TO_64 then VUndefined else VInt(val.Floor);
    }
  }

  /**
   Any number through the uint64_t path: accepted exactly when it is at most 2^64 + 2048 and rounds to a natural
   number. That number is then stored, within 1024 of the original; but from 2^64 - 1024 on the cast is undefined.
   A refused number leaves the destination alone.
   */
  lemma U64OfNumber(env: Env, r: real, cur: Value)
    requires env.rounded(r) == ToDouble(r) && (env.beyond(r) <==> Beyond(r))
    ensures var (o, val) := (DecodeU64(env, JNum(r), cur), ToDouble(r));
      && (o.thrown.None? <==> r <= 18446744073709553664.0 && val >= 0.0 && val == val.Floor as real)
      && (o.thrown.None? ==> (o.dest.VUndefined? <==> r >= 18446744073709550592.0))
      && (o.thrown.None? && r < 18446744073709550592.0 ==>
            o.dest == VInt(val.Floor) && r - 1024.0 <= val <= r + 1024.0 && 0 <= val.Floor < TWO_TO_64)
      && (o.thrown.Some? ==> o.dest == cur)
  {
    RoundedRange(r);
    if Beyond(r) {
      BeyondIsLarge(r);
    }
    CastExact(ToDouble(r), env.beyond(r), cur, DecodeU64(env, JNum(r), cur).dest);
  }

  /** Where a number stands towards 2^64 after rounding. */
  lemma RoundedRange(r: real)
    ensures var val := ToDouble(r);
      && (r >= 0.0 ==> val >= 0.0) && (r < 0.0 ==> val <= 0.0)
      && (val < TWO_TO_64 as real <==> r < 18446744073709550592.0)
      && (val <= TWO_TO_64 as real <==> r <= 18446744073709553664.0)
      && (0.0 <= val && r < 18446744073709550592.0 ==> r - 1024.0 <= val <= r + 1024.0)
  {
    if r >= 0.0 {
      NeverNegative(r);
      BelowLimit(r);
      if r < 18446744073709551616.0 {
        ErrorBound(r);
      } else {
        AboveLimit(r);
      }
    } else {
      assert ToDouble(r) == -ToDouble(-r);
      NeverNegative(-r);
      if -r < 18446744073709551616.0 {
        ErrorBound(-r);
      } else {
        AboveLimit(-r);
      }
    }
  }

  /** A double with a fraction keeps it, and is refused for it. */
  lemma U64RefusesFractions(env: Env, r: real, m: int, e: int, cur: Value)
    requires env.rounded(r) == ToDouble(r) && !env.beyond(r) && InRange(r) && IsDouble(r, m, e)
    requires 0.0 <= r <= 18446744073709551616.0 && r != r.Floor as real
    ensures DecodeU64(env, JNum(r), cur) == Outcome(cur, Some(Fractional))
  {
    DoublesAreExact(r, m, e);
    UnsignedRefused(env, JNum(r), cur);
    U64Exact(env, JNum(r), cur, cur);
  }

  /**
   Integers through the uint64_t path: accepted exactly from 0 to 2^64 + 2048; the destination is then within
   1024 of the number, and equal to it up to 2^53, but the cast is undefined from 2^64 - 1024 on.
   */
  lemma U64OfInteger(env: Env, n: int, cur: Value)
    requires env.rounded(n as real) == ToDouble(n as real) && (env.beyond(n as real) <==> Beyond(n as real))
    ensures var o := DecodeU64(env, JNum(n as real), cur);
      && (o.thrown.None? <==> 0 <= n <= TWO_TO_64 + 2048)
      && (o.thrown.None? ==> (o.dest.VUndefined? <==> n >= TWO_TO_64 - 1024))
      && (0 <= n < TWO_TO_64 - 1024 ==> o.dest.VInt? && n - 1024 <= o.dest.n <= n + 1024 && 0 <= o.dest.n < TWO_TO_64)
      && (0 <= n <= 0x20_0000_0000_0000 ==> o.dest == VInt(n))
      && (o.thrown.Some? ==> o.dest == cur)
  {
    U64OfNumber(env, n as real, cur);
    if n < 0 {
      PositiveStaysPositive(-n);
    } else {
      IntegerRounds(n);
      if n <= 0x20_0000_0000_0000 {
        SmallIntegersExact(n);
      }
    }
  }
}
