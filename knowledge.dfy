/** The triple store half of FileBasedDataService (`believe`, `inquire`) as
    functions of the `kb` table, together with the meaning sqlite gives the
    `SELECT` statement that `inquire` assembles. */
module Knowledge {
  import opened Wrappers
  import opened Streams
  import opened Codec
  import opened Lexing

  /** One row of the `kb` table besides its key. */
  datatype Triple = Triple(subject: Bytes, property: string, value: string)

  /** The `kb` table: triple identifier (a raw digest) -> triple. */
  type Kb = map<Bytes, Triple>

  /** A row as `inquire` yields it: (cid, subject, property, value). */
  datatype Row = Row(cid: Bytes, subject: Bytes, property: string, value: string)

  function RowOf(cid: Bytes, t: Triple): Row
  {
    Row(cid, t.subject, t.property, t.value)
  }

  /** The serialisation a triple is identified by. */
  function TripleText(c: Codec, subject: Bytes, property: string, value: string): string
  {
    c.encode(subject) + "," + property + "," + value
  }

  /** The triple identifier: the digest of the UTF-8 bytes of its serialisation. */
  function TripleId(c: Codec, subject: Bytes, property: string, value: string): Bytes
  {
    c.hash(Utf8(TripleText(c, subject, property, value)))
  }

  /** The table after `believe`, the identifier returned and whether a row was
      inserted. */
  datatype Belief = Belief(kb: Kb, id: Bytes, isNew: bool)

  /** `believe(subject, property, value)`: insert the triple under its identifier
      unless a row with that identifier exists. */
  function Believe(c: Codec, kb: Kb, subject: Bytes, property: string, value: string): Belief
  {
    var id := TripleId(c, subject, property, value);
    if id in kb then Belief(kb, id, false)
    else Belief(kb[id := Triple(subject, property, value)], id, true)
  }

  // ---------------------------------------------------------------------------
  // The SQL text `inquire` builds and what sqlite makes of it

  /** A bound parameter: `subject` is bound as a BLOB, `property` and `value` as TEXT. */
  datatype Param = Blob(bytes: Bytes) | Text(text: string)

  datatype SqlError =
    | SyntaxError   // sqlite3.OperationalError: the WHERE clause does not parse
    | BindingError  // sqlite3.ProgrammingError: wrong number of bindings

  const SelectPrefix: string := "SELECT cid, subject, property, value FROM kb WHERE "
  // The fragments appended to the query, written word by word:
  /** " subject = ?" */
  const SubjectCond: string := " " + "subject" + " " + "=" + " " + "?"
  /** " value = ?" */
  const ValueCond: string := " " + "value" + " " + "=" + " " + "?"
  /** " AND " */
  const AndSep: string := " " + "AND" + " "
  /** " AND property = ?" */
  const PropertyCond: string := " " + "AND" + (" " + "property" + " " + "=" + " " + "?")

  predicate IsColumn(w: string)
  {
    w == "subject" || w == "property" || w == "value"
  }

  /** The grammar of a WHERE clause made of comparisons with placeholders:
      `col = ? (AND col = ?)*`. Returns the compared columns in order; an empty
      clause or one that starts with AND does not parse. */
  function ParseConds(ws: seq<string>): (r: Option<seq<string>>)
    ensures r.Some? ==> |r.value| >= 1 && 4 * |r.value| == |ws| + 1
    ensures r.Some? ==> forall k | 0 <= k < |r.value| :: IsColumn(r.value[k]) && r.value[k] == ws[4 * k]
    decreases |ws|
  {
    if |ws| < 3 || !IsColumn(ws[0]) || ws[1] != "=" || ws[2] != "?" then None
    else if |ws| == 3 then Some([ws[0]])
    else if ws[3] != "AND" then None
    else
      match ParseConds(ws[4..])
      case None => None
      case Some(cols) => Some([ws[0]] + cols)
  }

  /** Whether a triple passes the comparison of column `col` with parameter `p`;
      a BLOB never equals a TEXT. */
  predicate Matches(t: Triple, col: string, p: Param)
  {
    match p
    case Blob(b) => col == "subject" && t.subject == b
    case Text(x) => (col == "property" && t.property == x) || (col == "value" && t.value == x)
  }

  /** Whether a triple passes every comparison of the WHERE clause. */
  predicate SatisfiesAll(t: Triple, cols: seq<string>, params: seq<Param>)
    requires |cols| == |params|
  {
    |cols| == 0 || (Matches(t, cols[0], params[0]) && SatisfiesAll(t, cols[1..], params[1..]))
  }

  /** `cursor.execute(query, params)` followed by `fetchall()`, for a SELECT of the
      four columns of `kb` filtered by a conjunction of placeholder comparisons.
      Row order is left open, so the result is a set. */
  function Execute(query: string, params: seq<Param>, kb: Kb): Result<set<Row>, SqlError>
  {
    if |query| < |SelectPrefix| || query[..|SelectPrefix|] != SelectPrefix then Err(SyntaxError)
    else ExecuteWhere(query[|SelectPrefix|..], params, kb)
  }

  /** The same statement, given by its WHERE clause. */
  function ExecuteWhere(where: string, params: seq<Param>, kb: Kb): Result<set<Row>, SqlError>
  {
    match ParseConds(Words(where))
    case None => Err(SyntaxError)
    case Some(cols) =>
      if |cols| != |params| then Err(BindingError)
      else Ok(Selected(kb, cols, params))
  }

  /** The rows that pass every comparison. */
  function Selected(kb: Kb, cols: seq<string>, params: seq<Param>): set<Row>
    requires |cols| == |params|
  {
    set cid | cid in kb && SatisfiesAll(kb[cid], cols, params) :: RowOf(cid, kb[cid])
  }

  /** The WHERE clause `inquire` appends for the filters that are not None. */
  function WhereText(hasSubject: bool, hasValue: bool, hasProperty: bool): string
  {
    SubjectPart(hasSubject) + (ValuePart(hasSubject, hasValue) + PropertyPart(hasProperty))
  }

  /** The parameters `inquire` binds, in the order it appends them. */
  function WhereParams(subject: Option<Bytes>, property: Option<string>, value: Option<string>): seq<Param>
  {
    (if subject.Some? then [Blob(subject.value)] else [])
    + (if value.Some? then [Text(value.value)] else [])
    + (if property.Some? then [Text(property.value)] else [])
  }

  /** The columns the WHERE clause compares, in the order `inquire` appends them. */
  function WhereCols(hasSubject: bool, hasValue: bool, hasProperty: bool): seq<string>
  {
    (if hasSubject then ["subject"] else [])
    + (if hasValue then ["value"] else [])
    + (if hasProperty then ["property"] else [])
  }

  /** `inquire(subject, property, value)`. */
  function Inquire(kb: Kb, subject: Option<Bytes>, property: Option<string>, value: Option<string>): Result<set<Row>, SqlError>
  {
    Execute(SelectPrefix + WhereText(subject.Some?, value.Some?, property.Some?),
            WhereParams(subject, property, value), kb)
  }

  /** The rows a caller means to get: every row that agrees with each given filter. */
  predicate Wanted(t: Triple, subject: Option<Bytes>, property: Option<string>, value: Option<string>)
  {
    (subject.Some? ==> t.subject == subject.value) &&
    (property.Some? ==> t.property == property.value) &&
    (value.Some? ==> t.value == value.value)
  }

  function MatchingRows(kb: Kb, subject: Option<Bytes>, property: Option<string>, value: Option<string>): set<Row>
  {
    set cid | cid in kb && Wanted(kb[cid], subject, property, value) :: RowOf(cid, kb[cid])
  }

  // ---------------------------------------------------------------------------
  // Lexing lemmas

  lemma {:induction false} WordsOfSubjectCond()
    ensures Words(SubjectCond) == ["subject", "=", "?"]
  {
    WordsOfThree("subject", "=", "?");
  }

  lemma {:induction false} WordsOfValueCond()
    ensures Words(ValueCond) == ["value", "=", "?"]
  {
    WordsOfThree("value", "=", "?");
  }

  lemma {:induction false} WordsOfAndSep()
    ensures Words(AndSep) == ["AND"]
  {
    WordsOfBlankWord("AND");
    assert Words(" ") == [] by { LeadingBlank(" "); assert " "[1..] == []; }
    WordsConcat(" " + "AND", " ");
  }

  lemma {:induction false} WordsOfPropertyCond()
    ensures Words(PropertyCond) == ["AND", "property", "=", "?"]
  {
    WordsOfBlankWord("AND");
    WordsOfThree("property", "=", "?");
    WordsConcat(" " + "AND", " " + "property" + " " + "=" + " " + "?");
  }

  /** The fragments of the WHERE clause, one per filter. */
  function SubjectPart(hasSubject: bool): string
  {
    if hasSubject then SubjectCond else ""
  }

  function ValuePart(hasSubject: bool, hasValue: bool): string
  {
    if hasValue then (if hasSubject then AndSep else "") + ValueCond else ""
  }

  function PropertyPart(hasProperty: bool): string
  {
    if hasProperty then PropertyCond else ""
  }

  /** The words of each fragment. */
  function SubjectWords(hasSubject: bool): seq<string>
  {
    if hasSubject then ["subject", "=", "?"] else []
  }

  function ValueWords(hasSubject: bool, hasValue: bool): seq<string>
  {
    if hasValue then (if hasSubject then ["AND"] else []) + ["value", "=", "?"] else []
  }

  function PropertyWords(hasProperty: bool): seq<string>
  {
    if hasProperty then ["AND", "property", "=", "?"] else []
  }

  lemma {:induction false} WordsOfSubjectPart(hasSubject: bool)
    ensures Words(SubjectPart(hasSubject)) == SubjectWords(hasSubject)
  {
    if hasSubject { WordsOfSubjectCond(); }
  }

  lemma {:induction false} WordsOfValuePart(hasSubject: bool, hasValue: bool)
    ensures Words(ValuePart(hasSubject, hasValue)) == ValueWords(hasSubject, hasValue)
    ensures ValuePart(hasSubject, hasValue) == [] || ValuePart(hasSubject, hasValue)[0] == ' '
  {
    if hasValue {
      WordsOfValueCond();
      if hasSubject {
        WordsOfAndSep();
        WordsConcat(AndSep, ValueCond);
        assert (AndSep + ValueCond)[0] == AndSep[0];
      } else {
        assert ("" + ValueCond) == ValueCond;
      }
    }
  }

  lemma {:induction false} WordsOfPropertyPart(hasProperty: bool)
    ensures Words(PropertyPart(hasProperty)) == PropertyWords(hasProperty)
    ensures PropertyPart(hasProperty) == [] || PropertyPart(hasProperty)[0] == ' '
  {
    if hasProperty { WordsOfPropertyCond(); }
  }

  /** The words of the WHERE clause `inquire` builds, fragment by fragment. */
  lemma {:induction false} WordsOfWhere(hasSubject: bool, hasValue: bool, hasProperty: bool)
    ensures Words(WhereText(hasSubject, hasValue, hasProperty)) ==
      SubjectWords(hasSubject) + (ValueWords(hasSubject, hasValue) + PropertyWords(hasProperty))
  {
    WordsOfSubjectPart(hasSubject);
    WordsOfValuePart(hasSubject, hasValue);
    WordsOfPropertyPart(hasProperty);
    WordsConcat3(SubjectPart(hasSubject), ValuePart(hasSubject, hasValue), PropertyPart(hasProperty));
  }

  /** The words of a WHERE clause comparing `cols` in order, joined by AND. */
  function CondWords(cols: seq<string>): seq<string>
    requires cols != []
  {
    if |cols| == 1 then [cols[0], "=", "?"]
    else [cols[0], "=", "?", "AND"] + CondWords(cols[1..])
  }

  /** The grammar accepts exactly the conjunctions it describes, giving back the columns. */
  lemma {:induction false} ParseCondWords(cols: seq<string>)
    requires cols != [] && forall k | 0 <= k < |cols| :: IsColumn(cols[k])
    ensures ParseConds(CondWords(cols)) == Some(cols)
  {
    var ws := CondWords(cols);
    assert IsColumn(cols[0]);
    if |cols| == 1 {
      assert ws == [cols[0], "=", "?"];
      assert ws[1] == "=" && ws[2] == "?";
      assert cols == [cols[0]];
    } else {
      var rest := CondWords(cols[1..]);
      assert ws == [cols[0], "=", "?", "AND"] + rest;
      assert ws[0] == cols[0] && ws[1] == "=" && ws[2] == "?" && ws[3] == "AND";
      assert ws[4..] == rest;
      ParseCondWords(cols[1..]);
      assert ParseConds(ws) == Some([cols[0]] + cols[1..]);
      assert [cols[0]] + cols[1..] == cols;
    }
  }

  // ---------------------------------------------------------------------------
  // What inquire returns

  /** A conjunction of two lists of comparisons holds exactly when both do. */
  lemma {:induction false} SatisfiesAllAppend(t: Triple, c1: seq<string>, p1: seq<Param>, c2: seq<string>, p2: seq<Param>)
    requires |c1| == |p1| && |c2| == |p2|
    ensures SatisfiesAll(t, c1 + c2, p1 + p2) <==> SatisfiesAll(t, c1, p1) && SatisfiesAll(t, c2, p2)
  {
    if c1 == [] {
      assert c1 + c2 == c2 && p1 + p2 == p2;
    } else {
      assert (c1 + c2)[1..] == c1[1..] + c2;
      assert (p1 + p2)[1..] == p1[1..] + p2;
      SatisfiesAllAppend(t, c1[1..], p1[1..], c2, p2);
    }
  }

  /** Passing the comparisons `inquire` binds is agreeing with every given filter. */
  lemma {:induction false} SatisfiesWanted(t: Triple, subject: Option<Bytes>, property: Option<string>, value: Option<string>)
    ensures SatisfiesAll(t, WhereCols(subject.Some?, value.Some?, property.Some?), WhereParams(subject, property, value))
      <==> Wanted(t, subject, property, value)
  {
    var cs := if subject.Some? then ["subject"] else [];
    var ps := if subject.Some? then [Blob(subject.value)] else [];
    var cv := if value.Some? then ["value"] else [];
    var pv := if value.Some? then [Text(value.value)] else [];
    var cp := if property.Some? then ["property"] else [];
    var pp := if property.Some? then [Text(property.value)] else [];
    SatisfiesAllAppend(t, cs + cv, ps + pv, cp, pp);
    SatisfiesAllAppend(t, cs, ps, cv, pv);
  }

  /** When a subject or a value is given, the fragments' words are the conjunction
      of the compared columns. */
  lemma {:induction false} FiltersAreConds(hasSubject: bool, hasValue: bool, hasProperty: bool)
    requires hasSubject || hasValue
    ensures CondWords(WhereCols(hasSubject, hasValue, hasProperty)) ==
      SubjectWords(hasSubject) + (ValueWords(hasSubject, hasValue) + PropertyWords(hasProperty))
  {
    var cols := WhereCols(hasSubject, hasValue, hasProperty);
    var tail: seq<string> := if hasProperty then ["property"] else [];
    var pw := PropertyWords(hasProperty);
    var last := if hasProperty then CondWords(tail) else [];
    assert hasProperty ==> CondWords(tail) == ["property", "=", "?"];
    assert pw == if hasProperty then ["AND"] + CondWords(tail) else [];
    if hasSubject && hasValue {
      var vs := ["value"] + tail;
      assert cols == ["subject"] + vs && cols[1..] == vs;
      assert hasProperty ==> vs[1..] == tail;
      assert CondWords(vs) == ["value", "=", "?"] + pw;
      assert CondWords(cols) == ["subject", "=", "?", "AND"] + CondWords(vs);
    } else {
      var head := if hasSubject then "subject" else "value";
      assert cols == [head] + tail;
      assert hasProperty ==> cols[1..] == tail;
      assert CondWords(cols) == [head, "=", "?"] + pw;
    }
  }

  /** With neither a subject nor a value the clause is empty or starts with AND. */
  lemma {:induction false} NoFilterDoesNotParse(hasProperty: bool)
    ensures ParseConds(SubjectWords(false) + (ValueWords(false, false) + PropertyWords(hasProperty))) == None
  {
    var ws := SubjectWords(false) + (ValueWords(false, false) + PropertyWords(hasProperty));
    assert ws == PropertyWords(hasProperty);
    assert ws != [] ==> ws[0] == "AND" && !IsColumn(ws[0]);
  }

  /** A statement with the fixed prefix is read from its WHERE clause. */
  lemma {:induction false} PrefixedQuery(where: string, params: seq<Param>, kb: Kb)
    ensures Execute(SelectPrefix + where, params, kb) == ExecuteWhere(where, params, kb)
  {
    var q := SelectPrefix + where;
    assert q[..|SelectPrefix|] == SelectPrefix;
    assert q[|SelectPrefix|..] == where;
  }

  /** Filtering by the comparisons `inquire` writes selects exactly the rows that
      agree with every given filter. */
  lemma {:induction false} SelectedIsMatching(kb: Kb, subject: Option<Bytes>, property: Option<string>, value: Option<string>)
    ensures var cols := WhereCols(subject.Some?, value.Some?, property.Some?);
            var params := WhereParams(subject, property, value);
            |cols| == |params| && Selected(kb, cols, params) == MatchingRows(kb, subject, property, value)
  {
    var cols := WhereCols(subject.Some?, value.Some?, property.Some?);
    var params := WhereParams(subject, property, value);
    forall cid | cid in kb
      ensures SatisfiesAll(kb[cid], cols, params) <==> Wanted(kb[cid], subject, property, value)
    {
      SatisfiesWanted(kb[cid], subject, property, value);
    }
  }

  /** The query `inquire` sends parses exactly when a subject or a value is given;
      then it yields exactly the rows that agree with every given filter. With
      neither, the WHERE clause is empty or starts with AND, and sqlite rejects it. */
  lemma {:induction false} InquireMeaning(kb: Kb, subject: Option<Bytes>, property: Option<string>, value: Option<string>)
    ensures Inquire(kb, subject, property, value) ==
      if subject.None? && value.None? then Err(SyntaxError)
      else Ok(MatchingRows(kb, subject, property, value))
  {
    var S, V, P := subject.Some?, value.Some?, property.Some?;
    var where := WhereText(S, V, P);
    var params := WhereParams(subject, property, value);
    PrefixedQuery(where, params, kb);
    WordsOfWhere(S, V, P);
    if !S && !V {
      NoFilterDoesNotParse(P);
    } else {
      var cols := WhereCols(S, V, P);
      FiltersAreConds(S, V, P);
      ParseCondWords(cols);
      SelectedIsMatching(kb, subject, property, value);
    }
  }

  // ---------------------------------------------------------------------------
  // believe

  /** The table only grows: `believe` keeps every row, adds at most the one row
      under the triple's identifier, and reports whether it did. */
  lemma {:induction false} BelieveAppendOnly(c: Codec, kb: Kb, subject: Bytes, property: string, value: string)
    ensures var b := Believe(c, kb, subject, property, value);
      && b.id == TripleId(c, subject, property, value)
      && b.kb.Keys == kb.Keys + {b.id}
      && (forall cid | cid in kb :: b.kb[cid] == kb[cid])
      && (b.isNew <==> b.id !in kb)
      && (b.isNew ==> b.kb[b.id] == Triple(subject, property, value))
      && |b.kb| == |kb| + (if b.isNew then 1 else 0)
  {
  }

  /** Believing the same triple twice yields the same identifier, the second time
      as not new and without changing the table. */
  lemma {:induction false} BelieveIdempotent(c: Codec, kb: Kb, subject: Bytes, property: string, value: string)
    ensures var b := Believe(c, kb, subject, property, value);
      Believe(c, b.kb, subject, property, value) == Belief(b.kb, b.id, false)
  {
  }

  /** Triples with the same serialisation share one identifier; only the first one
      believed is kept. */
  lemma {:induction false} SameTextSameRow(c: Codec, kb: Kb, s1: Bytes, p1: string, v1: string, s2: Bytes, p2: string, v2: string)
    requires TripleText(c, s1, p1, v1) == TripleText(c, s2, p2, v2)
    requires TripleId(c, s1, p1, v1) !in kb
    ensures var b1 := Believe(c, kb, s1, p1, v1);
      var b2 := Believe(c, b1.kb, s2, p2, v2);
      b2 == Belief(b1.kb, b1.id, false) && b2.kb[b2.id] == Triple(s1, p1, v1)
  {
  }

  /** Commas inside fields make serialisations coincide: ("a,b", "c") and
      ("a", "b,c") about the same subject are one triple to `believe`. */
  lemma {:induction false} CommaCollision(c: Codec, kb: Kb, subject: Bytes)
    requires TripleId(c, subject, "a,b", "c") !in kb
    ensures var b1 := Believe(c, kb, subject, "a,b", "c");
      var b2 := Believe(c, b1.kb, subject, "a", "b,c");
      !b2.isNew && b2.id == b1.id && b2.kb[b2.id] == Triple(subject, "a,b", "c")
  {
    var e := c.encode(subject);
    assert e + "," + "a,b" + "," + "c" == e + "," + "a" + "," + "b,c";
    SameTextSameRow(c, kb, subject, "a,b", "c", subject, "a", "b,c");
  }

  /** A triple just believed is found by a query on its subject. */
  lemma {:induction false} BelieveThenInquire(c: Codec, kb: Kb, subject: Bytes, property: string, value: string)
    requires Believe(c, kb, subject, property, value).isNew
    ensures var b := Believe(c, kb, subject, property, value);
      var r := Inquire(b.kb, Some(subject), None, None);
      r.Ok? && RowOf(b.id, Triple(subject, property, value)) in r.value
  {
    var b := Believe(c, kb, subject, property, value);
    InquireMeaning(b.kb, Some(subject), None, None);
    assert b.id in b.kb && Wanted(b.kb[b.id], Some(subject), None, None);
  }

  /** Two assertions about a subject nothing was said of before: a query by that
      subject returns both rows and no others (when their identifiers are new and
      differ). */
  lemma {:induction false} TwoAssertionsOneSubject(c: Codec, kb: Kb, subject: Bytes, p1: string, v1: string, p2: string, v2: string)
    requires forall cid | cid in kb :: kb[cid].subject != subject
    requires TripleId(c, subject, p1, v1) !in kb && TripleId(c, subject, p2, v2) !in kb
    requires TripleId(c, subject, p1, v1) != TripleId(c, subject, p2, v2)
    ensures var b1 := Believe(c, kb, subject, p1, v1);
      var b2 := Believe(c, b1.kb, subject, p2, v2);
      Inquire(b2.kb, Some(subject), None, None) ==
        Ok({Row(b1.id, subject, p1, v1), Row(b2.id, subject, p2, v2)})
  {
    var b1 := Believe(c, kb, subject, p1, v1);
    var b2 := Believe(c, b1.kb, subject, p2, v2);
    assert b2.kb == kb[b1.id := Triple(subject, p1, v1)][b2.id := Triple(subject, p2, v2)];
    InquireMeaning(b2.kb, Some(subject), None, None);
    var want := {Row(b1.id, subject, p1, v1), Row(b2.id, subject, p2, v2)};
    var got := MatchingRows(b2.kb, Some(subject), None, None);
    assert RowOf(b1.id, b2.kb[b1.id]) in got;
    assert RowOf(b2.id, b2.kb[b2.id]) in got;
    assert got == want;
  }
}
