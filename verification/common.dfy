/** Values and helpers shared by every part of the model: the PHP values that
    requests, responses and queue messages carry, HTTP responses, UUID text
    and the few string operations PHP and PCRE provide to the application. */
module Common {

  datatype Option<+T> = None | Some(value: T)

  datatype Result<+T, +E> = Success(value: T) | Failure(error: E)

  /** A PHP value as `json_decode($body, true)` produces it, or as a handler
      passes it to `response()->json`. `List` is a PHP list, `Assoc` an
      associative array, `Object` an object that serialises as a JSON object
      without being an array (a validator's MessageBag). */
  datatype PhpValue =
    | Null
    | Bool(b: bool)
    | Int(i: int)
    | Str(s: string)
    | List(items: seq<PhpValue>)
    | Assoc(entries: map<string, PhpValue>)
    | Object(fields: map<string, PhpValue>)

  /** PHP's `is_array($v)`. */
  predicate IsArray(v: PhpValue)
  {
    v.List? || v.Assoc?
  }

  /** PHP's `isset($v[$key])` for a string key: the key is present and not null. */
  predicate IsSet(v: PhpValue, key: string)
  {
    v.Assoc? && key in v.entries && !v.entries[key].Null?
  }

  /** PHP's truthiness, `(bool) $v`. */
  predicate Truthy(v: PhpValue)
  {
    match v
    case Null => false
    case Bool(b) => b
    case Int(i) => i != 0
    case Str(s) => s != "" && s != "0"
    case List(items) => items != []
    case Assoc(entries) => entries != map[]
    case Object(_) => true
  }

  /** A string literal made only of lower-case letters: PHP never reads it as a number. */
  predicate IsWordLiteral(lit: string)
  {
    lit != [] && forall i :: 0 <= i < |lit| ==> 'a' <= lit[i] <= 'z'
  }

  /** PHP 8's loose comparison `$v == 'lit'` (also what `switch` uses) against a
      word literal: equal strings match, and so does `true`, since a non-empty
      non-"0" string is truthy; null, numbers and arrays never match. */
  predicate LooseEquals(v: PhpValue, lit: string)
    requires IsWordLiteral(lit)
  {
    v == Str(lit) || v == Bool(true)
  }

  /** ASCII lower-casing (what PCRE's `/i` flag does without `/u`). */
  function Lower(c: char): char
  {
    if 'A' <= c <= 'Z' then (c as int - 'A' as int + 'a' as int) as char else c
  }

  /** ASCII upper-casing. */
  function Upper(c: char): char
  {
    if 'a' <= c <= 'z' then (c as int - 'a' as int + 'A' as int) as char else c
  }

  /** An HTTP response: status code and the payload given to `response()->json`. */
  datatype Response = Response(code: int, body: PhpValue)

  predicate IsHexDigit(c: char)
  {
    '0' <= c <= '9' || 'a' <= c <= 'f' || 'A' <= c <= 'F'
  }

  /** `Str::isUuid`: the 8-4-4-4-12 hexadecimal text form of a UUID
      (section 3 of RFC 4122), in either letter case. */
  predicate IsUuid(s: string)
  {
    && |s| == 36
    && (forall i :: 0 <= i < 36 && (i == 8 || i == 13 || i == 18 || i == 23) ==> s[i] == '-')
    && (forall i :: 0 <= i < 36 && i != 8 && i != 13 && i != 18 && i != 23 ==> IsHexDigit(s[i]))
  }

  /** `t` occurs in `s` as a contiguous substring (`str_contains`, SQL `LIKE '%t%'`). */
  predicate Contains(s: string, t: string)
    decreases |s|
  {
    t <= s || (s != [] && Contains(s[1..], t))
  }

  lemma {:induction false} ContainsAt(s: string, t: string, i: nat)
    requires i + |t| <= |s| && s[i..i + |t|] == t
    ensures Contains(s, t)
    decreases i
  {
    if i == 0 {
      assert t <= s;
    } else {
      assert s[1..][i - 1..i - 1 + |t|] == t;
      ContainsAt(s[1..], t, i - 1);
    }
  }

  lemma {:induction false} ContainsWitness(s: string, t: string) returns (i: nat)
    requires Contains(s, t)
    ensures i + |t| <= |s| && s[i..i + |t|] == t
    decreases |s|
  {
    if t <= s {
      i := 0;
    } else {
      var j := ContainsWitness(s[1..], t);
      i := j + 1;
      assert s[i..i + |t|] == s[1..][j..j + |t|];
    }
  }

  /** The characters PHP's `trim` strips by default: " \t\n\r\0\x0B". */
  predicate IsTrimChar(c: char)
  {
    c == ' ' || c == '\t' || c == '\n' || c == '\r' || c == '\0' || c == '\U{0B}'
  }

  function TrimLeft(s: string): (r: string)
    ensures |r| <= |s| && r == s[|s| - |r|..]
    ensures r == [] || !IsTrimChar(r[0])
    ensures forall i :: 0 <= i < |s| - |r| ==> IsTrimChar(s[i])
  {
    if s != [] && IsTrimChar(s[0]) then
      var r := TrimLeft(s[1..]);
      assert s[|s| - |r|..] == s[1..][|s| - 1 - |r|..];
      assert forall i :: 1 <= i < |s| - |r| ==> s[i] == s[1..][i - 1];
      r
    else s
  }

  function TrimRight(s: string): (r: string)
    ensures |r| <= |s| && r == s[..|r|]
    ensures r == [] || !IsTrimChar(r[|r| - 1])
    ensures forall i :: |r| <= i < |s| ==> IsTrimChar(s[i])
  {
    if s != [] && IsTrimChar(s[|s| - 1]) then
      var r := TrimRight(s[..|s| - 1]);
      assert s[..|r|] == s[..|s| - 1][..|r|];
      assert forall i :: |r| <= i < |s| - 1 ==> s[i] == s[..|s| - 1][i];
      r
    else s
  }

  /** PHP's `trim($s)`. */
  function Trim(s: string): string
  {
    TrimRight(TrimLeft(s))
  }

  lemma TrimEmptyIffAllTrimChars(s: string)
    ensures Trim(s) == [] <==> forall i :: 0 <= i < |s| ==> IsTrimChar(s[i])
  {
    var l := TrimLeft(s);
    if Trim(s) == [] {
      assert l == [];
    } else {
      assert !IsTrimChar(s[|s| - |l|]);
    }
  }

  /** PHP's `empty($s)` for a string: "" and "0" are empty. */
  predicate EmptyString(s: string)
  {
    s == "" || s == "0"
  }

  /** PCRE's `\s` without the `u` flag: space, \t, \n, \x0B, \f, \r. */
  predicate IsRegexSpace(c: char)
  {
    c == ' ' || c == '\t' || c == '\n' || c == '\U{0B}' || c == '\U{0C}' || c == '\r'
  }

  /** PCRE's word character for `\b` without the `u` flag: [A-Za-z0-9_]. */
  predicate IsWordChar(c: char)
  {
    'a' <= c <= 'z' || 'A' <= c <= 'Z' || '0' <= c <= '9' || c == '_'
  }

  function Digit(d: nat): (c: char)
    requires d < 10
    ensures '0' <= c <= '9' && c as int == '0' as int + d
  {
    ('0' as int + d) as char
  }

  function DigitValue(c: char): (d: nat)
    requires '0' <= c <= '9'
    ensures d < 10 && Digit(d) == c
  {
    (c as int - '0' as int) as nat
  }

  lemma DigitRoundTrip(d: nat)
    requires d < 10
    ensures DigitValue(Digit(d)) == d
  {
  }

  predicate AllDigits(s: string)
  {
    forall i :: 0 <= i < |s| ==> '0' <= s[i] <= '9'
  }

  /** Decimal text of a natural number, no leading zeros (zero is "0"). */
  function NatToText(n: nat): (r: string)
    ensures r != [] && AllDigits(r)
    ensures n > 0 ==> r[0] != '0'
    decreases n
  {
    if n < 10 then [Digit(n)] else NatToText(n / 10) + [Digit(n % 10)]
  }

  /** The value of a string of decimal digits. */
  function TextToNat(s: string): nat
    requires AllDigits(s)
    decreases |s|
  {
    if s == [] then 0 else TextToNat(s[..|s| - 1]) * 10 + DigitValue(s[|s| - 1])
  }

  lemma TextToNatSnoc(s: string, c: char)
    requires AllDigits(s) && '0' <= c <= '9'
    ensures AllDigits(s + [c])
    ensures TextToNat(s + [c]) == TextToNat(s) * 10 + DigitValue(c)
  {
    assert (s + [c])[..|s|] == s;
  }

  lemma {:induction false} NatTextRoundTrip(n: nat)
    ensures TextToNat(NatToText(n)) == n
    decreases n
  {
    var r := NatToText(n);
    if n < 10 {
      assert r[..|r| - 1] == [];
    } else {
      NatTextRoundTrip(n / 10);
      assert r[..|r| - 1] == NatToText(n / 10);
    }
  }
}
