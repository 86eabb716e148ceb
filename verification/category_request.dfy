/** `CategoryRequest`: the SQL-injection screen run before validation, and the
    `name` rules (required, string, at most 255 characters, letters, digits,
    whitespace and hyphens, unique among active categories). */
module CategoryRequest {
  import opened Common
  import opened Schema
  import Postgres

  const SqlMessage: string := "The name contains invalid characters or SQL keywords."
  const RequiredMessage: string := "Nama kategori harus diisi"
  const StringMessage: string := "Nama kategori harus berupa teks"
  const MaxMessage: string := "Nama kategori maksimal 255 karakter"
  const RegexMessage: string := "Nama kategori hanya boleh mengandung huruf, angka, spasi, dan tanda hubung"
  const UniqueMessage: string := "Nama kategori sudah digunakan"

  const DmlKeywords: seq<string> := ["drop", "delete", "update", "insert", "select", "alter", "create", "truncate"]
  const ClauseKeywords: seq<string> := ["union", "join", "where", "from", "into"]
  const ObjectKeywords: seq<string> := ["table", "database", "schema"]

  predicate EqualsIgnoringCase(s: string, t: string)
  {
    |s| == |t| && forall i :: 0 <= i < |s| ==> Lower(s[i]) == t[i]
  }

  /** `\b` before position `i`, where a word character follows. */
  predicate BoundaryBefore(s: string, i: int)
    requires 0 <= i <= |s|
  {
    i == 0 || !IsWordChar(s[i - 1])
  }

  /** `\b` at position `j`, after a word character. */
  predicate BoundaryAfter(s: string, j: int)
    requires 0 <= j <= |s|
  {
    j == |s| || !IsWordChar(s[j])
  }

  /** `kw` occurs at `i` as a whole word, in any letter case. */
  predicate KeywordAt(s: string, i: int, kw: string)
  {
    && 0 <= i && i + |kw| <= |s|
    && EqualsIgnoringCase(s[i..i + |kw|], kw)
    && BoundaryBefore(s, i) && BoundaryAfter(s, i + |kw|)
  }

  /** `/\b(k1|k2|...)\b/i` matches somewhere in `s`. */
  predicate HasKeyword(s: string, keywords: seq<string>)
  {
    exists k, i :: 0 <= k < |keywords| && 0 <= i <= |s| && KeywordAt(s, i, keywords[k])
  }

  predicate IsQuoteOrSemicolon(c: char)
  {
    c == '\'' || c == '"' || c == ';'
  }

  predicate IsQuoteOrDigit(c: char)
  {
    c == '\'' || c == '"' || '0' <= c <= '9'
  }

  /** `/\b(or|and)\s+['"0-9]/` matches with `word` at `i`: exact case, then at
      least one whitespace character, then a quote or a digit. */
  predicate ConnectiveAt(s: string, i: int, word: string)
  {
    && 0 <= i && i + |word| <= |s|
    && s[i..i + |word|] == word && BoundaryBefore(s, i)
    && exists k :: i + |word| < k < |s| && IsQuoteOrDigit(s[k])
         && forall m :: i + |word| <= m < k ==> IsRegexSpace(s[m])
  }

  predicate HasConnective(s: string)
  {
    exists i :: 0 <= i <= |s| && (ConnectiveAt(s, i, "or") || ConnectiveAt(s, i, "and"))
  }

  /** `/--|#|\/\*|\*\//` */
  predicate HasCommentMarker(s: string)
  {
    Contains(s, "--") || Contains(s, "#") || Contains(s, "/*") || Contains(s, "*/")
  }

  /** The disjunction of the six patterns `prepareForValidation` tests. */
  predicate HasInjection(s: string)
  {
    || (exists i :: 0 <= i < |s| && IsQuoteOrSemicolon(s[i]))
    || HasKeyword(s, DmlKeywords)
    || HasKeyword(s, ClauseKeywords)
    || HasKeyword(s, ObjectKeywords)
    || HasConnective(s)
    || HasCommentMarker(s)
  }

  /** `/^[a-zA-Z0-9\s\-]+$/` */
  predicate NameCharset(s: string)
  {
    s != [] && forall i :: 0 <= i < |s| ==>
      'a' <= s[i] <= 'z' || 'A' <= s[i] <= 'Z' || '0' <= s[i] <= '9' || IsRegexSpace(s[i]) || s[i] == '-'
  }

  /** The `name` input: absent, present but null, or a string. */
  datatype NameInput = Missing | NullName | Given(s: string)

  /** The messages the `name` rules produce, in rule order. A null or blank name
      fails the implicit `required` rule, which stops the attribute's other rules;
      `unique` is a presence rule, skipped once `max` or `regex` has failed. */
  function NameErrors(name: NameInput, categories: CategoryTable, ignore: Option<Id>): (errors: seq<string>)
    ensures errors == [] <==>
      name.Given? && Trim(name.s) != [] && |name.s| <= 255 && NameCharset(name.s)
      && !CategoryNameTaken(categories, name.s, ignore)
    ensures RequiredMessage in errors <==> !(name.Given? && Trim(name.s) != [])
    ensures RequiredMessage in errors ==> errors == [RequiredMessage]
    ensures UniqueMessage in errors <==>
      name.Given? && Trim(name.s) != [] && |name.s| <= 255 && NameCharset(name.s)
      && CategoryNameTaken(categories, name.s, ignore)
    ensures UniqueMessage in errors ==> errors == [UniqueMessage]
    ensures StringMessage !in errors
    ensures name.Given? && Trim(name.s) != [] ==>
      (MaxMessage in errors <==> |name.s| > 255) && (RegexMessage in errors <==> !NameCharset(name.s))
  {
    match name
    case Missing => MessagesDistinct(); [RequiredMessage]
    case NullName => MessagesDistinct(); [RequiredMessage]
    case Given(s) =>
      if Trim(s) == [] then [RequiredMessage]
      else
        NonEmptyHasChar(s);
        var shape := ShapeErrors(s);
        if shape != [] then shape
        else if CategoryNameTaken(categories, s, ignore) then [UniqueMessage]
        else []
  }

  /** The messages of the `max` and `regex` rules, which both run on any non-blank name. */
  function ShapeErrors(s: string): (errors: seq<string>)
    ensures MaxMessage in errors <==> |s| > 255
    ensures RegexMessage in errors <==> !NameCharset(s)
    ensures errors == [] <==> |s| <= 255 && NameCharset(s)
    ensures RequiredMessage !in errors && StringMessage !in errors && UniqueMessage !in errors
  {
    MessagesDistinct();
    (if |s| > 255 then [MaxMessage] else []) + (if !NameCharset(s) then [RegexMessage] else [])
  }

  /** The five rule messages differ (their lengths do). */
  lemma MessagesDistinct()
    ensures |RequiredMessage| == 25 && |StringMessage| == 31 && |MaxMessage| == 35
    ensures |RegexMessage| == 74 && |UniqueMessage| == 29
  {
  }

  lemma NonEmptyHasChar(s: string)
    requires Trim(s) != []
    ensures s != []
  {
  }

  /** The 422 body thrown from `failedValidation` / the `after` hook: the validator's
      message bag under `errors`. */
  function RuleFailure(errors: seq<string>): Response
  {
    Response(422, Assoc(map[
      "status" := Str("error"),
      "errors" := Object(map["name" := List(seq(|errors|, i requires 0 <= i < |errors| => Str(errors[i])))])]))
  }

  /** The 422 body thrown from `prepareForValidation`. */
  function InjectionFailure(): Response
  {
    Response(422, Assoc(map["status" := Str("error"), "errors" := Assoc(map["name" := List([Str(SqlMessage)])])]))
  }

  /** The unique rule's ignored id: none on POST, the route's `id` parameter otherwise. */
  function IgnoredId(isPost: bool, routeId: Option<Id>): Option<Id>
  {
    if isPost then None else routeId
  }

  /** Resolving the request: the injection screen first, then the rules. */
  function Validate(name: NameInput, isPost: bool, routeId: Option<Id>, categories: CategoryTable): (r: Result<string, Response>)
    ensures r.Success? <==>
      && name.Given? && !HasInjection(name.s)
      && Trim(name.s) != [] && |name.s| <= 255 && NameCharset(name.s)
      && !CategoryNameTaken(categories, name.s, IgnoredId(isPost, routeId))
    ensures r.Success? ==> r.value == name.s
    ensures r.Failure? ==>
      && r.error.code == 422 && r.error.body.Assoc?
      && r.error.body.entries.Keys == {"status", "errors"} && r.error.body.entries["status"] == Str("error")
    ensures name.Given? && HasInjection(name.s) ==> r == Failure(InjectionFailure())
  {
    if name.Given? && HasInjection(name.s) then
      Failure(InjectionFailure())
    else
      var errors := NameErrors(name, categories, IgnoredId(isPost, routeId));
      if errors == [] then Success(name.s) else Failure(RuleFailure(errors))
  }

  /** The request `update` should use: the resource route's `{category}` parameter
      is the row the unique rule ignores, so a category may keep its own name.
      `ignore` compares the `uuid` column with the parameter as a value, so the
      row excused is the one any spelling of its id finds. */
  function ValidateForUpdate(name: NameInput, id: string, categories: CategoryTable): (r: Result<string, Response>)
    ensures r.Success? <==>
      && name.Given? && !HasInjection(name.s)
      && Trim(name.s) != [] && |name.s| <= 255 && NameCharset(name.s)
      && !CategoryNameTaken(categories, name.s, Postgres.Key(id))
    ensures Postgres.Find(categories, id).Found? ==>
      var k := Postgres.Find(categories, id).key;
      name == Given(categories[k].name)
      && !HasInjection(name.s) && Trim(name.s) != [] && |name.s| <= 255 && NameCharset(name.s)
      && (forall j :: j in categories && j != k && categories[j].Active() ==> categories[j].name != name.s)
      ==> r == Success(name.s)
  {
    Validate(name, false, Postgres.Key(id), categories)
  }

  /** As written the update rule ignores `route('id')`, which the resource route
      never binds: an update that repeats the category's own name is refused. */
  lemma UpdateKeepingNameRejectedAsWritten(categories: CategoryTable, id: Id)
    requires id in categories && categories[id].Active()
    ensures Validate(Given(categories[id].name), false, None, categories).Failure?
  {
    assert CategoryNameTaken(categories, categories[id].name, None);
  }

  /** `'`, `"` and `;` are refused anywhere in the name. */
  lemma QuoteRejected(s: string, i: nat, isPost: bool, routeId: Option<Id>, categories: CategoryTable)
    requires i < |s| && IsQuoteOrSemicolon(s[i])
    ensures Validate(Given(s), isPost, routeId, categories) == Failure(InjectionFailure())
  {
  }

  /** A keyword of any of the three lists, in any letter case, is refused when it
      stands as a whole word. */
  lemma KeywordRejected(s: string, i: nat, kw: string, isPost: bool, routeId: Option<Id>, categories: CategoryTable)
    requires kw in DmlKeywords + ClauseKeywords + ObjectKeywords && KeywordAt(s, i, kw)
    ensures Validate(Given(s), isPost, routeId, categories) == Failure(InjectionFailure())
  {
    if kw in DmlKeywords {
      var k :| 0 <= k < |DmlKeywords| && DmlKeywords[k] == kw;
      assert HasKeyword(s, DmlKeywords);
    } else if kw in ClauseKeywords {
      var k :| 0 <= k < |ClauseKeywords| && ClauseKeywords[k] == kw;
      assert HasKeyword(s, ClauseKeywords);
    } else {
      var k :| 0 <= k < |ObjectKeywords| && ObjectKeywords[k] == kw;
      assert HasKeyword(s, ObjectKeywords);
    }
  }

  /** A keyword inside a longer word does not count: "Updated" has no `\b` after "update". */
  lemma KeywordNeedsBoundary(s: string, i: nat, kw: string)
    requires i + |kw| < |s| && IsWordChar(s[i + |kw|])
    ensures !KeywordAt(s, i, kw)
  {
  }

  /** `or`/`and` followed by whitespace and a quote or digit is refused wherever it
      starts a word... */
  lemma ConnectiveRejected(s: string, i: nat, word: string, isPost: bool, routeId: Option<Id>, categories: CategoryTable)
    requires (word == "or" || word == "and") && ConnectiveAt(s, i, word)
    ensures Validate(Given(s), isPost, routeId, categories) == Failure(InjectionFailure())
  {
    assert HasConnective(s);
  }

  /** ...but the connective check has no `/i`: upper-case "OR" is not a connective there. */
  lemma ConnectiveIsCaseSensitive(s: string, i: int)
    requires 0 <= i && i + 2 <= |s| && s[i..i + 2] == "OR"
    ensures !ConnectiveAt(s, i, "or") && !ConnectiveAt(s, i, "and")
  {
    assert s[i] == 'O';
  }

  /** A double hyphen is refused although the charset allows single hyphens. */
  lemma DoubleHyphenRejected(s: string, isPost: bool, routeId: Option<Id>, categories: CategoryTable)
    requires Contains(s, "--")
    ensures Validate(Given(s), isPost, routeId, categories) == Failure(InjectionFailure())
  {
  }

  /** Two names the charset accepts, joined by one hyphen, are accepted too. */
  lemma SingleHyphenInCharset(a: string, b: string)
    requires NameCharset(a) && NameCharset(b)
    ensures NameCharset(a + "-" + b)
  {
    var s := a + "-" + b;
    forall i | 0 <= i < |s|
      ensures 'a' <= s[i] <= 'z' || 'A' <= s[i] <= 'Z' || '0' <= s[i] <= '9' || IsRegexSpace(s[i]) || s[i] == '-'
    {
      if i < |a| {
        assert s[i] == a[i];
      } else if i > |a| {
        assert s[i] == b[i - |a| - 1];
      }
    }
  }

  /** On POST any active category with the same name blocks the request. */
  lemma PostRejectsTakenName(s: string, routeId: Option<Id>, categories: CategoryTable, id: Id)
    requires !HasInjection(s) && id in categories && categories[id].Active() && categories[id].name == s
    ensures Validate(Given(s), true, routeId, categories).Failure?
  {
  }

  /** Soft-deleted categories do not hold on to their names. */
  lemma DeletedNamesAreFree(s: string, categories: CategoryTable, id: Id)
    requires id in categories && categories[id].name == s && !categories[id].Active()
    ensures CategoryNameTaken(categories, s, None) == CategoryNameTaken(map i | i in categories && i != id :: categories[i], s, None)
  {
    var rest := map i | i in categories && i != id :: categories[i];
    if CategoryNameTaken(categories, s, None) {
      var j :| j in categories && categories[j].Active() && categories[j].name == s;
      assert j in rest;
    }
  }
}
