/** The two PostgreSQL behaviours the search query relies on: reading text as a
    `uuid` value, and `LIKE` pattern matching. */
module Postgres {
  import opened Common

  // ---------------------------------------------------------------- uuid input

  /** Reads the bytes `i..15` of a `uuid` literal from `s`. Each byte is two
      hexadecimal digits. After each odd-numbered byte except the last, one `-`
      may follow. The result is the digits read, lower-cased, and the text left over. */
  function UuidBytes(s: string, i: nat): (r: Option<(string, string)>)
    requires i <= 16
    ensures r.Some? ==> |r.value.0| == 2 * (16 - i)
    ensures r.Some? ==> forall k :: 0 <= k < |r.value.0| ==> IsHexDigit(r.value.0[k]) && !('A' <= r.value.0[k] <= 'Z')
    decreases 16 - i
  {
    if i == 16 then Some(([], s))
    else if |s| < 2 || !IsHexDigit(s[0]) || !IsHexDigit(s[1]) then None
    else
      var rest := if |s| > 2 && s[2] == '-' && i % 2 == 1 && i < 15 then s[3..] else s[2..];
      match UuidBytes(rest, i + 1)
      case None => None
      case Some((digits, tail)) => Some(([Lower(s[0]), Lower(s[1])] + digits, tail))
  }

  /** The value PostgreSQL reads when text is cast to `uuid`, as its 32 lower-case
      hexadecimal digits. `None` means the cast raises "invalid input syntax for
      type uuid". Braces around the literal and either letter case are accepted. */
  function PgUuid(s: string): (r: Option<string>)
    ensures r.Some? ==> |r.value| == 32
  {
    var braces := s != [] && s[0] == '{';
    match UuidBytes(if braces then s[1..] else s, 0)
    case None => None
    case Some((digits, tail)) => if tail == (if braces then "}" else "") then Some(digits) else None
  }

  /** Where byte `i` starts in the 8-4-4-4-12 form. */
  function StandardOffset(i: nat): nat
  {
    2 * i + (if i >= 4 then 1 else 0) + (if i >= 6 then 1 else 0) + (if i >= 8 then 1 else 0) + (if i >= 10 then 1 else 0)
  }

  predicate HyphenPosition(p: int)
  {
    p == 8 || p == 13 || p == 18 || p == 23
  }

  /** Byte `i` sits on two digit positions; a hyphen follows exactly bytes 3, 5, 7 and 9. */
  lemma OffsetFacts(i: nat)
    requires i < 16
    ensures StandardOffset(i) + 2 <= 36
    ensures !HyphenPosition(StandardOffset(i)) && !HyphenPosition(StandardOffset(i) + 1)
    ensures HyphenPosition(StandardOffset(i) + 2) <==> i == 3 || i == 5 || i == 7 || i == 9
    ensures StandardOffset(i + 1) == StandardOffset(i) + (if i == 3 || i == 5 || i == 7 || i == 9 then 3 else 2)
  {
  }

  lemma HexAt(s: string, p: nat)
    requires IsUuid(s) && p < 36 && !HyphenPosition(p)
    ensures IsHexDigit(s[p])
  {
  }

  /** The digits of bytes `i..15` of 8-4-4-4-12 text, lower-cased. */
  function StandardDigits(s: string, i: nat): (r: string)
    requires |s| == 36 && i <= 16
    decreases 16 - i
  {
    if i == 16 then []
    else
      OffsetFacts(i);
      [Lower(s[StandardOffset(i)]), Lower(s[StandardOffset(i) + 1])] + StandardDigits(s, i + 1)
  }

  /** One step of reading 8-4-4-4-12 text: the byte at its offset, then the rest from the next offset. */
  lemma StandardStep(s: string, i: nat)
    requires IsUuid(s) && i < 16
    ensures StandardOffset(i + 1) <= 36 && StandardOffset(i) + 1 < 36
    ensures UuidBytes(s[StandardOffset(i)..], i) ==
      match UuidBytes(s[StandardOffset(i + 1)..], i + 1)
      case None => None
      case Some((digits, tail)) => Some(([Lower(s[StandardOffset(i)]), Lower(s[StandardOffset(i) + 1])] + digits, tail))
  {
    var p := StandardOffset(i);
    OffsetFacts(i);
    HexAt(s, p);
    HexAt(s, p + 1);
    var t := s[p..];
    var q := StandardOffset(i + 1);
    var rest := if |t| > 2 && t[2] == '-' && i % 2 == 1 && i < 15 then t[3..] else t[2..];
    if i == 3 || i == 5 || i == 7 || i == 9 {
      assert t[2] == s[p + 2] == '-';
      assert rest == s[q..];
    } else {
      if p + 2 < 36 {
        HexAt(s, p + 2);
        assert t[2] == s[p + 2] != '-';
      }
      assert rest == s[q..];
    }
    assert t[0] == s[p] && t[1] == s[p + 1];
  }

  lemma {:induction false} StandardBytes(s: string, i: nat)
    requires IsUuid(s) && i <= 16
    ensures StandardOffset(i) <= 36
    ensures UuidBytes(s[StandardOffset(i)..], i) == Some((StandardDigits(s, i), []))
    decreases 16 - i
  {
    if i < 16 {
      StandardStep(s, i);
      StandardBytes(s, i + 1);
      assert StandardDigits(s, i) == [Lower(s[StandardOffset(i)]), Lower(s[StandardOffset(i) + 1])] + StandardDigits(s, i + 1);
    } else {
      assert s[StandardOffset(i)..] == [];
    }
  }

  /** The 8-4-4-4-12 form `Str::isUuid` accepts is valid `uuid` input, and its
      value is its digits. */
  lemma StandardUuidAccepted(s: string)
    requires IsUuid(s)
    ensures PgUuid(s) == Some(StandardDigits(s, 0))
  {
    StandardBytes(s, 0);
    assert s[StandardOffset(0)..] == s;
  }

  /** Upper-cases every letter of `s`. */
  function UpperText(s: string): (r: string)
    ensures |r| == |s| && forall k :: 0 <= k < |s| ==> r[k] == Upper(s[k])
  {
    seq(|s|, k requires 0 <= k < |s| => Upper(s[k]))
  }

  lemma {:induction false} UuidBytesIgnoreCase(s: string, i: nat)
    requires i <= 16
    ensures var r := UuidBytes(s, i);
      UuidBytes(UpperText(s), i) == if r.None? then None else Some((r.value.0, UpperText(r.value.1)))
    decreases 16 - i
  {
    var u := UpperText(s);
    if i < 16 && |s| >= 2 && IsHexDigit(s[0]) && IsHexDigit(s[1]) {
      assert IsHexDigit(u[0]) && IsHexDigit(u[1]) && Lower(u[0]) == Lower(s[0]) && Lower(u[1]) == Lower(s[1]);
      if |s| > 2 && s[2] == '-' && i % 2 == 1 && i < 15 {
        assert u[3..] == UpperText(s[3..]);
        UuidBytesIgnoreCase(s[3..], i + 1);
      } else {
        assert u[2..] == UpperText(s[2..]);
        UuidBytesIgnoreCase(s[2..], i + 1);
      }
    }
  }

  /** Upper-casing leaves the brace and the empty text recognisable. */
  lemma UpperKeepsBraces(t: string)
    ensures (UpperText(t) == "}") == (t == "}") && (UpperText(t) == "") == (t == "")
    ensures t != [] ==> (UpperText(t)[0] == '{') == (t[0] == '{') && UpperText(t)[1..] == UpperText(t[1..])
  {
    if |t| == 1 {
      assert UpperText(t)[0] == Upper(t[0]);
    }
  }

  /** The cast ignores letter case: a UUID typed in capitals is the same value. */
  lemma UuidIgnoresCase(s: string)
    ensures PgUuid(UpperText(s)) == PgUuid(s)
  {
    UpperKeepsBraces(s);
    var braces := s != [] && s[0] == '{';
    var inner := if braces then s[1..] else s;
    UuidBytesIgnoreCase(inner, 0);
    var r := UuidBytes(inner, 0);
    if r.Some? {
      UpperKeepsBraces(r.value.1);
    }
  }

  /** Upper-casing keeps the 8-4-4-4-12 form `Str::isUuid` accepts. */
  lemma UpperKeepsUuid(s: string)
    requires IsUuid(s)
    ensures IsUuid(UpperText(s))
  {
  }

  // ---------------------------------------------------------------- uuid keys

  /** Lower-case hexadecimal digits: the digits `PgUuid` reads. */
  predicate LowerHex(d: string)
  {
    forall k :: 0 <= k < |d| ==> IsHexDigit(d[k]) && !('A' <= d[k] <= 'Z')
  }

  /** The text PostgreSQL prints for the `uuid` value with digits `d`: the
      8-4-4-4-12 form in lower case. */
  function UuidText(d: string): (r: string)
    requires |d| == 32
    ensures |r| == 36
  {
    d[..8] + "-" + d[8..12] + "-" + d[12..16] + "-" + d[16..20] + "-" + d[20..]
  }

  /** Where each digit of `d` lands in `UuidText(d)`. */
  lemma UuidTextChars(d: string)
    requires |d| == 32
    ensures var s := UuidText(d);
      && (forall p :: 0 <= p < 8 ==> s[p] == d[p])
      && (forall p :: 9 <= p < 13 ==> s[p] == d[p - 1])
      && (forall p :: 14 <= p < 18 ==> s[p] == d[p - 2])
      && (forall p :: 19 <= p < 23 ==> s[p] == d[p - 3])
      && (forall p :: 24 <= p < 36 ==> s[p] == d[p - 4])
      && s[8] == '-' && s[13] == '-' && s[18] == '-' && s[23] == '-'
  {
  }

  lemma UuidTextAt(d: string, i: nat)
    requires |d| == 32 && i < 16
    ensures StandardOffset(i) + 1 < 36
    ensures UuidText(d)[StandardOffset(i)] == d[2 * i] && UuidText(d)[StandardOffset(i) + 1] == d[2 * i + 1]
  {
    UuidTextChars(d);
  }

  lemma UuidTextIsUuid(d: string)
    requires |d| == 32 && LowerHex(d)
    ensures IsUuid(UuidText(d))
  {
    UuidTextChars(d);
  }

  lemma {:induction false} UuidTextDigits(d: string, i: nat)
    requires |d| == 32 && LowerHex(d) && i <= 16
    ensures StandardDigits(UuidText(d), i) == d[2 * i..]
    decreases 16 - i
  {
    if i < 16 {
      UuidTextAt(d, i);
      UuidTextDigits(d, i + 1);
      assert d[2 * i..] == [d[2 * i], d[2 * i + 1]] + d[2 * (i + 1)..];
    }
  }

  /** What PostgreSQL prints reads back as the same value. */
  lemma PrintedReadsBack(d: string)
    requires |d| == 32 && LowerHex(d)
    ensures PgUuid(UuidText(d)) == Some(d)
  {
    UuidTextIsUuid(d);
    StandardUuidAccepted(UuidText(d));
    UuidTextDigits(d, 0);
  }

  /** The key a `uuid` column holds for the text `s`: the value `s` is cast to,
      as PostgreSQL prints it. `None` when the cast raises. */
  function Key(s: string): (r: Option<string>)
    ensures r.Some? <==> PgUuid(s).Some?
    ensures r.Some? ==> PgUuid(r.value) == PgUuid(s) && IsUuid(r.value)
  {
    match PgUuid(s)
    case None => None
    case Some(d) =>
      PrintedReadsBack(d);
      UuidTextIsUuid(d);
      Some(UuidText(d))
  }

  /** Text in the form PostgreSQL prints a `uuid`, as every key read from a table is. */
  predicate Stored(k: string)
  {
    Key(k) == Some(k)
  }

  /** A key read from a table is a UUID `Str::isUuid` accepts, and a printed key is stored text. */
  lemma StoredIsUuid(k: string)
    requires Stored(k)
    ensures IsUuid(k) && k[0] != '{'
  {
  }

  lemma KeyIsStored(s: string)
    requires PgUuid(s).Some?
    ensures Stored(Key(s).value)
  {
  }

  /** What `where id = s` finds in a table keyed by a `uuid` column. */
  datatype Lookup = CastFails | Missing | Found(key: string)

  /** `where id = s`: the text is cast to `uuid` and compared as a value, so any
      spelling of a stored key finds its row. */
  function Find<V>(t: map<string, V>, s: string): (r: Lookup)
    ensures r.CastFails? <==> PgUuid(s).None?
    ensures r.Found? ==> r.key in t && PgUuid(r.key) == PgUuid(s)
    ensures r.Missing? ==> forall k :: k in t && Stored(k) ==> PgUuid(k) != PgUuid(s)
  {
    match Key(s)
    case None => CastFails
    case Some(k) => if k in t then Found(k) else Missing
  }

  /** Every stored key finds itself. */
  lemma FindStored<V>(t: map<string, V>, k: string)
    requires k in t && Stored(k)
    ensures Find(t, k) == Found(k)
  {
  }

  /** Two spellings of one `uuid` value find the same row. */
  lemma FindBySameValue<V>(t: map<string, V>, a: string, b: string)
    requires PgUuid(a) == PgUuid(b)
    ensures Find(t, a) == Find(t, b)
  {
  }

  lemma {:induction false} UuidBytesAppend(s: string, c: char, i: nat)
    requires i <= 16 && !IsHexDigit(c) && c != '-'
    ensures var r := UuidBytes(s, i);
      UuidBytes(s + [c], i) == if r.None? then None else Some((r.value.0, r.value.1 + [c]))
    decreases 16 - i
  {
    var u := s + [c];
    if i < 16 && |s| >= 2 && IsHexDigit(s[0]) && IsHexDigit(s[1]) {
      assert u[0] == s[0] && u[1] == s[1];
      if |s| > 2 && s[2] == '-' && i % 2 == 1 && i < 15 {
        assert u[3..] == s[3..] + [c];
        UuidBytesAppend(s[3..], c, i + 1);
      } else {
        assert u[2..] == s[2..] + [c];
        UuidBytesAppend(s[2..], c, i + 1);
      }
    } else if i < 16 && |s| == 1 {
      assert u[1] == c;
    }
  }

  /** Braces around a UUID do not change the value it is read as. */
  lemma BracesIgnored(s: string)
    requires s == [] || s[0] != '{'
    ensures PgUuid("{" + s + "}") == PgUuid(s)
  {
    var b := "{" + s + "}";
    assert b[0] == '{' && b[1..] == s + ['}'];
    UuidBytesAppend(s, '}', 0);
  }

  // ---------------------------------------------------------------- LIKE

  /** `s LIKE pattern` with the default escape character: `%` matches any run of
      characters, `_` any one character, and `\` makes the character after it literal. */
  predicate Like(pattern: string, s: string)
    decreases |pattern| + |s|
  {
    if pattern == [] then s == []
    else if pattern[0] == '%' then Like(pattern[1..], s) || (s != [] && Like(pattern, s[1..]))
    else if pattern[0] == '\\' && |pattern| >= 2 then s != [] && s[0] == pattern[1] && Like(pattern[2..], s[1..])
    else if pattern[0] == '_' then s != [] && Like(pattern[1..], s[1..])
    else s != [] && s[0] == pattern[0] && Like(pattern[1..], s[1..])
  }

  /** The pattern `'%' . $term . '%'` the search filters build. */
  function Substring(term: string): string
  {
    "%" + term + "%"
  }

  /** A term with none of LIKE's special characters. */
  predicate Literal(t: string)
  {
    forall k :: 0 <= k < |t| ==> t[k] != '%' && t[k] != '_' && t[k] != '\\'
  }

  lemma {:induction false} PercentMatchesAll(s: string)
    ensures Like("%", s)
    decreases |s|
  {
    assert "%"[1..] == [];
    if s != [] {
      PercentMatchesAll(s[1..]);
    }
  }

  lemma {:induction false} LiteralPrefix(t: string, s: string)
    requires Literal(t)
    ensures Like(t + "%", s) <==> t <= s
    decreases |t|
  {
    if t == [] {
      assert t + "%" == "%";
      PercentMatchesAll(s);
    } else {
      assert (t + "%")[1..] == t[1..] + "%";
      if s != [] {
        LiteralPrefix(t[1..], s[1..]);
        assert t <= s <==> t[0] == s[0] && t[1..] <= s[1..];
      }
    }
  }

  /** Without special characters, `LIKE '%term%'` is a plain substring test. */
  lemma {:induction false} LiteralTermIsSubstring(t: string, s: string)
    requires Literal(t)
    ensures Like(Substring(t), s) <==> Contains(s, t)
    decreases |s|
  {
    var p := Substring(t);
    assert p[0] == '%' && p[1..] == t + "%";
    LiteralPrefix(t, s);
    if s != [] {
      LiteralTermIsSubstring(t, s[1..]);
    }
  }

  /** The term `_` matches every non-empty text, so `name=_` keeps every product. */
  lemma UnderscoreMatchesAnyText(s: string)
    ensures Like(Substring("_"), s) <==> s != []
  {
    var p := Substring("_");
    assert p[1..] == "_%" && p[1..][1..] == "%";
    if s != [] {
      PercentMatchesAll(s[1..]);
      assert Like(p[1..], s);
    } else {
      assert !Like(p[1..], s);
    }
  }
}
