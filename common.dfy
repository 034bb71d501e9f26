/** Shared value types of the SDK model: optional values, the three failure
    kinds the SDK distinguishes, decoded JSON, and the request parameter
    values with PHP's string conversion. */
module Common {

  datatype Option<+T> = None | Some(value: T) {
    function GetOr(default: T): T {
      match this
      case Some(v) => v
      case None => default
    }
  }

  /** The three distinguishable failure kinds: PHP's InvalidArgumentException,
      KWICK_Exception (local: transport or parse) and KWICK_Remote_Exception
      (the service reported an error_code). */
  datatype Error =
    | InvalidArgument(message: string)
    | Local(message: string, code: int)
    | Remote(message: string, code: int)

  datatype Result<+T> = Ok(value: T) | Err(error: Error) {
    predicate IsFailure() { Err? }
    function PropagateFailure<U>(): Result<U>
      requires Err?
    {
      Err(error)
    }
    function Extract(): T
      requires Ok?
    {
      value
    }
  }

  /** A decoded JSON body as json_decode(..., true) yields it: objects become
      keyed arrays, arrays become lists. Numbers are integers only. */
  datatype Json =
    | Null
    | Bool(b: bool)
    | Num(n: int)
    | Str(s: string)
    | List(items: seq<Json>)
    | Obj(fields: map<string, Json>)

  /** PHP is_array: both JSON lists and JSON objects decode to arrays. */
  predicate IsArray(j: Json) {
    j.List? || j.Obj?
  }

  /** PHP array_key_exists with a non-numeric string key: a list has only
      integer keys, so only an object can hold it. */
  predicate HasKey(j: Json, key: string) {
    j.Obj? && key in j.fields
  }

  /** Reading a missing array entry yields null in PHP. */
  function Lookup(j: Json, key: string): (r: Json)
    ensures !HasKey(j, key) ==> r == Null
    ensures HasKey(j, key) ==> r == j.fields[key]
  {
    if HasKey(j, key) then j.fields[key] else Null
  }

  /** PHP empty() on a string: "" and "0" are empty. */
  predicate EmptyText(s: string) {
    s == "" || s == "0"
  }

  /** PHP empty() on an optional string: null is empty too. */
  predicate EmptyOpt(s: Option<string>) {
    s.None? || EmptyText(s.value)
  }

  /** PHP truthiness, which is what a (bool) cast and !empty() compute. */
  predicate Truthy(j: Json): (t: bool)
    ensures j.Null? ==> !t
    ensures j.Bool? ==> (t <==> j.b)
    ensures j.Num? ==> (t <==> j.n != 0)
    ensures j.Str? ==> (t <==> !EmptyText(j.s))
    ensures j.List? ==> (t <==> j.items != [])
    ensures j.Obj? ==> (t <==> j.fields != map[])
  {
    match j
    case Null => false
    case Bool(b) => b
    case Num(n) => n != 0
    case Str(s) => !EmptyText(s)
    case List(items) => items != []
    case Obj(fields) => fields != map[]
  }

  function DigitChar(d: nat): (c: char)
    requires d < 10
    ensures '0' <= c <= '9'
  {
    "0123456789"[d]
  }

  /** Decimal text of a natural number, most significant digit first. */
  function NatToString(n: nat): (s: string)
    ensures |s| >= 1
    ensures forall i :: 0 <= i < |s| ==> '0' <= s[i] <= '9'
    decreases n
  {
    if n < 10 then [DigitChar(n)] else NatToString(n / 10) + [DigitChar(n % 10)]
  }

  /** Decimal text of an integer, as PHP writes an int into a string. */
  function IntToString(i: int): (s: string)
    ensures |s| >= 1
    ensures i >= 0 ==> s == NatToString(i)
    ensures i < 0 ==> s == "-" + NatToString(-i)
  {
    if i < 0 then "-" + NatToString(-i) else NatToString(i)
  }

  function DigitsValue(s: string): (n: nat)
    requires forall i :: 0 <= i < |s| ==> '0' <= s[i] <= '9'
  {
    if s == [] then 0 else DigitsValue(s[..|s| - 1]) * 10 + (s[|s| - 1] - '0') as nat
  }

  /** Length of the longest prefix of s made of decimal digits. */
  function DigitPrefix(s: string): (k: nat)
    ensures k <= |s|
    ensures forall i :: 0 <= i < k ==> '0' <= s[i] <= '9'
    ensures k < |s| ==> !('0' <= s[k] <= '9')
  {
    if s != [] && '0' <= s[0] <= '9' then 1 + DigitPrefix(s[1..]) else 0
  }

  /** PHP (int) of a string: an optional sign followed by the leading digits;
      no leading digits give 0. */
  function StringToInt(s: string): int {
    if s != [] && (s[0] == '-' || s[0] == '+') then
      var t := s[1..];
      var v: int := DigitsValue(t[..DigitPrefix(t)]);
      if s[0] == '-' then -v else v
    else
      DigitsValue(s[..DigitPrefix(s)])
  }

  lemma DigitCharValue(d: nat)
    requires d < 10
    ensures (DigitChar(d) - '0') as nat == d
  {
    if d == 0 {} else if d == 1 {} else if d == 2 {} else if d == 3 {} else if d == 4 {}
    else if d == 5 {} else if d == 6 {} else if d == 7 {} else if d == 8 {} else {}
  }

  lemma {:induction false} DigitsOfNat(n: nat)
    ensures DigitsValue(NatToString(n)) == n
    decreases n
  {
    var s := NatToString(n);
    if n < 10 {
      DigitCharValue(n);
      assert s[..0] == [];
    } else {
      DigitsOfNat(n / 10);
      DigitCharValue(n % 10);
      assert s == NatToString(n / 10) + [DigitChar(n % 10)];
      assert s[..|s| - 1] == NatToString(n / 10);
      assert s[|s| - 1] == DigitChar(n % 10);
    }
  }

  lemma {:induction false} DigitPrefixAll(s: string)
    requires forall i :: 0 <= i < |s| ==> '0' <= s[i] <= '9'
    ensures DigitPrefix(s) == |s|
    decreases |s|
  {
    if s != [] { DigitPrefixAll(s[1..]); }
  }

  lemma DigitsRoundTrip(n: nat)
    ensures var d := NatToString(n); DigitsValue(d[..DigitPrefix(d)]) == n
  {
    var d := NatToString(n);
    DigitPrefixAll(d);
    assert d[..|d|] == d;
    DigitsOfNat(n);
  }

  /** Writing an int as text and casting it back yields the same int. */
  lemma StringToIntRoundTrip(i: int)
    ensures StringToInt(IntToString(i)) == i
  {
    if i < 0 {
      NegativeRoundTrip(-i);
    } else {
      NaturalRoundTrip(i);
    }
  }

  lemma NaturalRoundTrip(n: nat)
    ensures StringToInt(NatToString(n)) == n
  {
    var d := NatToString(n);
    assert '0' <= d[0] <= '9';
    assert StringToInt(d) == DigitsValue(d[..DigitPrefix(d)]);
    DigitsRoundTrip(n);
  }

  lemma NegativeRoundTrip(n: nat)
    ensures StringToInt("-" + NatToString(n)) == 0 - n
  {
    var d := NatToString(n);
    var s := "-" + d;
    assert s != [] && s[0] == '-' && s[1..] == d;
    DigitsRoundTrip(n);
  }

  lemma ZeroText()
    ensures StringToInt("0") == 0
  {
    NaturalRoundTrip(0);
    assert NatToString(0) == "0";
  }

  /** PHP (int) cast of a decoded JSON value. */
  function JsonToInt(j: Json): (n: int)
    ensures j.Num? ==> n == j.n
    ensures j.Str? ==> n == StringToInt(j.s)
    ensures !Truthy(j) ==> n == 0
    ensures j.Bool? || IsArray(j) ==> n == (if Truthy(j) then 1 else 0)
  {
    match j
    case Null => 0
    case Bool(b) => if b then 1 else 0
    case Num(n) => n
    case Str(s) => ZeroText(); StringToInt(s)
    case List(items) => if items == [] then 0 else 1
    case Obj(fields) => if fields == map[] then 0 else 1
  }

  /** PHP string conversion of a decoded JSON value (arrays become "Array"). */
  function JsonToText(j: Json): (s: string)
    ensures EmptyText(s) <==> !Truthy(j)
    ensures j.Str? ==> s == j.s
    ensures j.Num? ==> StringToInt(s) == j.n
    ensures IsArray(j) && Truthy(j) ==> s == "Array"
  {
    match j
    case Null => ""
    case Bool(b) => if b then "1" else ""
    case Num(n) => StringToIntRoundTrip(n); IntToString(n)
    case Str(s) => s
    case List(items) => if items == [] then "" else "Array"
    case Obj(fields) => if fields == map[] then "" else "Array"
  }

  /** A request parameter value: the services put strings, ints and bools
      into the parameter array, and a missing session key is null. */
  datatype Value = VNull | VStr(s: string) | VInt(i: int) | VBool(b: bool)

  /** The request parameters: PHP array keys (non-numeric strings) to values. */
  type Params = map<string, Value>

  /** A parameter value written as text, as the signature's pairs write it. */
  function ValueText(v: Value): (s: string)
    ensures v.VStr? ==> s == v.s
    ensures v.VInt? ==> StringToInt(s) == v.i
    ensures v.VBool? ==> s == (if v.b then "1" else "")
    ensures v.VNull? ==> s == ""
  {
    match v
    case VNull => ""
    case VStr(s) => s
    case VInt(i) => StringToIntRoundTrip(i); IntToString(i)
    case VBool(b) => if b then "1" else ""
  }
}
