/** The dynamically typed values the preprocessing code handles (decoded JSON),
    Python's truthiness, `int()`, `str()` and f-string rendering of them, and
    the exceptions the modelled code can raise. */
module Python {
  import opened Text

  datatype Option<T> = None | Some(value: T) {
    function GetOr(default: T): T {
      match this
      case Some(v) => v
      case None => default
    }
  }

  /** A decoded JSON value. JSON numbers are modelled as integers only. */
  datatype Value =
    | VNone
    | VBool(b: bool)
    | VInt(i: int)
    | VStr(s: string)
    | VList(items: seq<Value>)
    | VDict(entries: map<string, Value>)

  /** The exceptions the modelled code can raise, plus `Unsupported` for a
      case the model declines to compute (see README). */
  datatype Error = TypeError | AttributeError | KeyError(key: string) | Unsupported

  /** The outcome of a Python call: a value, or the exception it raised. */
  datatype Outcome<T> = Ok(value: T) | Raised(error: Error)

  /** Library behaviour the model takes as given: `ipaddress.ip_address`
      succeeding on a string, `datetime.fromtimestamp(ns / 1e9, tz=utc).isoformat()`
      (the empty string wherever it fails), and `repr` of a list or dict. */
  datatype Stdlib = Stdlib(
    ipAddress: string -> bool,
    isoFromUnixNano: int -> string,
    repr: Value -> string)

  /** `bool(v)`. */
  predicate Truthy(v: Value) {
    match v
    case VNone => false
    case VBool(b) => b
    case VInt(i) => i != 0
    case VStr(s) => s != ""
    case VList(xs) => xs != []
    case VDict(m) => m != map[]
  }

  predicate IsDigit(c: char) {
    '0' <= c <= '9'
  }

  function DigitChar(d: nat): char
    requires d < 10
  {
    ('0' as int + d) as char
  }

  function NatToString(n: nat): (r: string)
    ensures |r| > 0 && forall i :: 0 <= i < |r| ==> IsDigit(r[i])
  {
    if n < 10 then [DigitChar(n)] else NatToString(n / 10) + [DigitChar(n % 10)]
  }

  /** `str(i)` for an integer. */
  function IntToString(i: int): string {
    if i < 0 then "-" + NatToString(-i) else NatToString(i)
  }

  /** The value of a run of decimal digits, ignoring the `_` separators. */
  function DigitsValue(s: string): nat {
    if s == [] then 0
    else if IsDigit(s[|s| - 1]) then DigitsValue(s[..|s| - 1]) * 10 + (s[|s| - 1] as int - '0' as int)
    else DigitsValue(s[..|s| - 1])
  }

  /** The body `int()` accepts after an optional sign: digits with single `_`
      between two digits. */
  predicate WellFormedDigits(s: string) {
    && |s| > 0 && IsDigit(s[0]) && IsDigit(s[|s| - 1])
    && (forall i :: 0 <= i < |s| ==> IsDigit(s[i]) || s[i] == '_')
    && (forall i :: 0 <= i < |s| - 1 ==> s[i] == '_' ==> s[i + 1] != '_')
  }

  /** The white space `int()` skips at either end of a string: what
      `str.isspace()` accepts, except the four separators U+001C..U+001F,
      which `int()` leaves in place and then rejects. */
  predicate IntSpace(c: char) {
    IsSpace(c) && !('\U{1C}' <= c <= '\U{1F}')
  }

  function IntTrimStart(s: string): (r: string)
    ensures |r| <= |s| && r == s[|s| - |r|..]
    ensures r == [] || !IntSpace(r[0])
    ensures forall i :: 0 <= i < |s| - |r| ==> IntSpace(s[i])
  {
    if |s| > 0 && IntSpace(s[0]) then IntTrimStart(s[1..]) else s
  }

  function IntTrimEnd(s: string): (r: string)
    ensures |r| <= |s| && r == s[..|r|]
    ensures r == [] || !IntSpace(r[|r| - 1])
    ensures forall i :: |r| <= i < |s| ==> IntSpace(s[i])
  {
    if |s| > 0 && IntSpace(s[|s| - 1]) then IntTrimEnd(s[..|s| - 1]) else s
  }

  /** The text `int()` reads once the white space it skips is gone. */
  function IntStrip(s: string): (r: string)
    ensures r == [] || (!IntSpace(r[0]) && !IntSpace(r[|r| - 1]))
  {
    IntTrimEnd(IntTrimStart(s))
  }

  lemma IntStripNoop(s: string)
    requires s == [] || (!IntSpace(s[0]) && !IntSpace(s[|s| - 1]))
    ensures IntStrip(s) == s
  {
    assert IntTrimStart(s) == s;
  }

  /** `int(s)` for a string, in base 10; `None` where Python raises `ValueError`. */
  function ParseInt(s: string): Option<int> {
    ParseSigned(IntStrip(s))
  }

  lemma {:induction false} IntTrimStartSnoc(s: string, c: char)
    ensures IntTrimStart(s + [c]) == if IntTrimStart(s) == [] && IntSpace(c) then [] else IntTrimStart(s) + [c]
  {
    if s == [] {
      assert [c][1..] == [];
    } else {
      assert (s + [c])[1..] == s[1..] + [c];
      if IntSpace(s[0]) {
        IntTrimStartSnoc(s[1..], c);
      }
    }
  }

  /** Leading or trailing white space that `int()` skips does not change its result. */
  lemma IntSpaceSkipped(c: char, s: string)
    requires IntSpace(c)
    ensures ParseInt([c] + s) == ParseInt(s) && ParseInt(s + [c]) == ParseInt(s)
  {
    assert ([c] + s)[1..] == s;
    IntTrimStartSnoc(s, c);
    var t := IntTrimStart(s);
    assert (t + [c])[..|t|] == t;
  }

  /** A separator U+001C..U+001F at either end makes `int()` raise. */
  lemma SeparatorFirst(c: char, s: string)
    requires '\U{1C}' <= c <= '\U{1F}'
    ensures ParseInt([c] + s) == None
  {
    assert !IntSpace(c) && !IsDigit(c) && c != '-' && c != '+';
    var x := [c] + s;
    assert x[0] == c;
    assert IntTrimStart(x) == x;
    var t := IntTrimEnd(x);
    assert |t| > 0;
    assert t[0] == c;
    assert !WellFormedDigits(t);
  }

  lemma SeparatorLast(c: char, s: string)
    requires '\U{1C}' <= c <= '\U{1F}'
    ensures ParseInt(s + [c]) == None
  {
    assert !IntSpace(c) && !IsDigit(c) && c != '-' && c != '+';
    IntTrimStartSnoc(s, c);
    var u := IntTrimStart(s + [c]);
    assert u == IntTrimStart(s) + [c];
    assert u[|u| - 1] == c;
    assert IntTrimEnd(u) == u;
    var body := if u[0] == '-' || u[0] == '+' then u[1..] else u;
    assert body == [] || body[|body| - 1] == c;
    assert !WellFormedDigits(body);
  }

  lemma SpaceStripped(c: char, s: string)
    requires IsSpace(c)
    ensures Strip([c] + s) == Strip(s)
  {
    assert ([c] + s)[1..] == s;
  }

  /** A file, group, record or unit separator (U+001C..U+001F) at either end
      makes `int()` raise, although `str.strip()` removes it; the other white
      space `int()` skips leaves its result unchanged. */
  lemma ParseIntSeparators(c: char, s: string)
    ensures '\U{1C}' <= c <= '\U{1F}' ==> Strip([c] + s) == Strip(s) && ParseInt([c] + s) == None
    ensures '\U{1C}' <= c <= '\U{1F}' ==> ParseInt(s + [c]) == None
    ensures IntSpace(c) ==> ParseInt([c] + s) == ParseInt(s) && ParseInt(s + [c]) == ParseInt(s)
  {
    if '\U{1C}' <= c <= '\U{1F}' {
      SpaceStripped(c, s);
      SeparatorFirst(c, s);
      SeparatorLast(c, s);
    }
    if IntSpace(c) {
      IntSpaceSkipped(c, s);
    }
  }

  /** `int()` of a string without surrounding white space. */
  function ParseSigned(t: string): Option<int> {
    var negative := |t| > 0 && t[0] == '-';
    var body := if |t| > 0 && (t[0] == '-' || t[0] == '+') then t[1..] else t;
    var magnitude: int := DigitsValue(body);
    if WellFormedDigits(body) then Some(if negative then -magnitude else magnitude) else None
  }

  /** `int(v)`; `None` where Python raises. */
  function ToInt(v: Value): Option<int> {
    match v
    case VInt(i) => Some(i)
    case VBool(b) => Some(if b then 1 else 0)
    case VStr(s) => ParseInt(s)
    case _ => None
  }

  lemma {:induction false} NatToStringValue(n: nat)
    ensures DigitsValue(NatToString(n)) == n
  {
    if n >= 10 {
      NatToStringValue(n / 10);
      var s := NatToString(n);
      assert s[..|s| - 1] == NatToString(n / 10);
    }
  }

  lemma AllDigitsWellFormed(d: string)
    requires |d| > 0 && forall i :: 0 <= i < |d| ==> IsDigit(d[i])
    ensures WellFormedDigits(d)
  {
  }

  /** `int()` of an optional minus sign followed by digits. */
  lemma ParseSignedDigits(t: string, negative: bool, digits: string)
    requires |digits| > 0 && forall i :: 0 <= i < |digits| ==> IsDigit(digits[i])
    requires t == if negative then "-" + digits else digits
    ensures ParseSigned(t) == Some(if negative then -(DigitsValue(digits) as int) else DigitsValue(digits))
  {
    AllDigitsWellFormed(digits);
    if negative {
      assert t[0] == '-' && t[1..] == digits;
    } else {
      assert IsDigit(t[0]);
    }
  }

  /** `int(str(i)) == i`: reading back the decimal rendering of an integer
      gives the integer. */
  lemma ParseIntToString(i: int)
    ensures ParseInt(IntToString(i)) == Some(i)
  {
    var n: nat := if i < 0 then -i else i;
    var digits := NatToString(n);
    NatToStringValue(n);
    var s := IntToString(i);
    assert s[|s| - 1] == digits[|digits| - 1];
    assert s[0] == '-' || s[0] == digits[0];
    IntStripNoop(s);
    ParseSignedDigits(s, i < 0, digits);
  }

  /** f-string rendering `f"{v}"`, i.e. `str(v)`; lists and dicts use `repr`. */
  function Show(v: Value, repr: Value -> string): (r: string)
    ensures v.VInt? ==> ParseInt(r) == Some(v.i)
    ensures v.VStr? ==> r == v.s
  {
    match v
    case VNone => "None"
    case VBool(b) => if b then "True" else "False"
    case VInt(i) => ParseIntToString(i); IntToString(i)
    case VStr(s) => s
    case _ => repr(v)
  }

  /** The `Value` an optional string field holds (`None` when absent). */
  function TextOrNone(o: Option<string>): Value {
    match o
    case Some(s) => VStr(s)
    case None => VNone
  }

  /** The `Value` an optional integer field holds (`None` when absent). */
  function IntOrNone(o: Option<int>): Value {
    match o
    case Some(i) => VInt(i)
    case None => VNone
  }

  /** Python's `a or b`. */
  function Or(a: Value, b: Value): (r: Value)
    ensures Truthy(a) ==> r == a
    ensures !Truthy(a) ==> r == b
  {
    if Truthy(a) then a else b
  }

  /** `[f(x) for x in xs]` for an `f` that may raise: the first exception, in
      list order, propagates. */
  function MapAll<A, B>(xs: seq<A>, f: A -> Outcome<B>): Outcome<seq<B>> {
    if xs == [] then Ok([])
    else
      var init := xs[..|xs| - 1];
      match MapAll(init, f)
      case Raised(e) => Raised(e)
      case Ok(ys) =>
        match f(xs[|xs| - 1])
        case Raised(e) => Raised(e)
        case Ok(y) => Ok(ys + [y])
  }

  /** The list is mapped element by element when nothing raises, and the
      exception is that of the first element that raises otherwise. */
  lemma {:induction false} MapAllSpec<A, B>(xs: seq<A>, f: A -> Outcome<B>)
    ensures var r := MapAll(xs, f);
      && (r.Ok? <==> forall i :: 0 <= i < |xs| ==> f(xs[i]).Ok?)
      && (r.Ok? ==> |r.value| == |xs| && forall i :: 0 <= i < |xs| ==> f(xs[i]) == Ok(r.value[i]))
      && (r.Raised? ==> exists i :: 0 <= i < |xs| && f(xs[i]) == Raised(r.error) && forall j :: 0 <= j < i ==> f(xs[j]).Ok?)
  {
    if xs != [] {
      MapAllSpec(xs[..|xs| - 1], f);
    }
  }

  lemma SplitAt<T>(s: seq<T>, k: nat)
    requires k <= |s|
    ensures s[..k] + s[k..] == s
  {
  }

  /** Once a prefix raises, what follows it is never looked at. */
  lemma {:induction false} MapAllRaised<A, B>(xs: seq<A>, ys: seq<A>, f: A -> Outcome<B>)
    requires MapAll(xs, f).Raised?
    ensures MapAll(xs + ys, f) == MapAll(xs, f)
  {
    if ys != [] {
      var init := ys[..|ys| - 1];
      MapAllRaised(xs, init, f);
      assert (xs + ys)[..|xs + ys| - 1] == xs + init;
    } else {
      assert xs + ys == xs;
    }
  }

  /** Extending the list by one element that maps without raising. */
  lemma MapAllSnoc<A, B>(xs: seq<A>, x: A, f: A -> Outcome<B>)
    ensures MapAll(xs + [x], f) == match MapAll(xs, f)
      case Raised(e) => Raised(e)
      case Ok(ys) => (match f(x) case Raised(e) => Raised(e) case Ok(y) => Ok(ys + [y]))
  {
    assert (xs + [x])[..|xs + [x]| - 1] == xs;
  }

  /** Python's `needle in v` for a string needle: substring test on a string,
      membership in a list, key test on a dict; `TypeError` otherwise. */
  function In(needle: string, v: Value): (r: Outcome<bool>)
    ensures r.Raised? <==> v.VNone? || v.VBool? || v.VInt?
    ensures v.VStr? ==> r == Ok(Occurs(v.s, needle))
  {
    match v
    case VStr(s) => Ok(Occurs(s, needle))
    case VList(xs) => Ok(VStr(needle) in xs)
    case VDict(m) => Ok(needle in m)
    case _ => Raised(TypeError)
  }
}
