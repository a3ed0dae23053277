/** `FilterRequest.GetFilter` in models/commons/common_types.go: the
    client-supplied filter groups compiled to one MongoDB query document. */
module FilterCompiler {
  import opened Wrappers
  import opened Query
  import Strings
  import Numbers
  import Dates

  datatype Field = Field(name: string, value: string, typ: string, minValue: string, maxValue: string)

  /** One group of fields, combined with `"$" + operator`. */
  datatype FilterGroup = FilterGroup(operator: string, fields: seq<Field>)

  datatype FilterRequest = FilterRequest(
    sort: string, isAscending: bool, page: Numbers.int64, pageSize: Numbers.int64, filters: seq<FilterGroup>)

  /** The type tags with a dedicated case; any other tag behaves like "string". */
  predicate KnownType(t: string) {
    t in {"string", "date", "array_object", "array_string", "boolean", "checkbox", "number", "number_range"}
  }

  /** The atomic conditions one field contributes to its group. */
  function CompileField(f: Field): seq<Cond> {
    if f.typ == "date" then
      match Dates.ParseDate(f.value)
      case None => []
      case Some(d) => [Range(f.name, SDate(Dates.DayStartMillis(d)), SDate(Dates.DayEndMillis(d)))]
    else if f.typ == "array_object" then
      var pieces := Strings.Split(f.value, ',');
      seq(|pieces|, i requires 0 <= i < |pieces| => Regex(f.name, pieces[i]))
    else if f.typ == "array_string" then
      [In(f.name, Strings.Split(f.value, ','))]
    else if f.typ == "boolean" || f.typ == "checkbox" then
      [EqOp(f.name, SBool(Numbers.ParseBool(f.value).GetOr(false)))]
    else if f.typ == "number" then
      [EqOp(f.name, SInt(Numbers.ParseInt64(f.value).GetOr(0)))]
    else if f.typ == "number_range" then
      [Range(f.name, SInt(Numbers.ParseInt64(f.minValue).GetOr(0)),
                     SInt(Numbers.ParseInt64(f.maxValue).GetOr(Numbers.MaxInt64)))]
    else
      // "string" and every unknown tag: the raw value as a case-insensitive regex
      [Regex(f.name, f.value)]
  }

  /** All conditions of a group's fields, in field order. */
  function CompileFields(fs: seq<Field>): seq<Cond> {
    if |fs| == 0 then [] else CompileField(fs[0]) + CompileFields(fs[1..])
  }

  /** A group contributes `{"$" + operator: items}` only when it has items. */
  function CompileGroup(g: FilterGroup): seq<Cond> {
    var items := CompileFields(g.fields);
    if |items| > 0 then [Combine("$" + g.operator, items)] else []
  }

  function CompileGroups(gs: seq<FilterGroup>): seq<Cond> {
    if |gs| == 0 then [] else CompileGroup(gs[0]) + CompileGroups(gs[1..])
  }

  /** `GetFilter()`: the contributing groups under one `$and`, or the empty
      filter when no group contributes. */
  function GetFilter(req: FilterRequest): Filter {
    var groups := CompileGroups(req.filters);
    if |groups| != 0 then Filter(Some(groups)) else Empty
  }

  // ---- per-type behaviour -------------------------------------------------

  /** "string" and every unknown tag compile to one raw, unescaped regex. */
  lemma StringAndUnknownTypes(f: Field)
    requires f.typ == "string" || !KnownType(f.typ)
    ensures CompileField(f) == [Regex(f.name, f.value)]
  {
  }

  /** An unparseable date silently drops the field; a parsed one becomes a
      range that holds a stored instant exactly when it falls on that day. */
  lemma DateField(f: Field, doc: Doc, rx: Regexes)
    requires f.typ == "date"
    ensures Dates.ParseDate(f.value).None? <==> CompileField(f) == []
    ensures Dates.ParseDate(f.value).Some? ==>
      var d := Dates.ParseDate(f.value).value;
      |CompileField(f)| == 1
      && (Lookup(doc, f.name).SDate? ==>
            Eval(doc, CompileField(f)[0], rx)
              == Some(Lookup(doc, f.name).millis / Dates.MillisPerDay == Dates.DayNumber(d)))
  {
    if Dates.ParseDate(f.value).Some? && Lookup(doc, f.name).SDate? {
      Dates.DayRangeCoversDay(Dates.ParseDate(f.value).value, Lookup(doc, f.name).millis);
    }
  }

  /** "array_object" emits one regex per comma-separated piece, untrimmed, in
      order, all into the same group; joining the patterns gives the value back. */
  lemma ArrayObjectField(f: Field)
    requires f.typ == "array_object"
    ensures |CompileField(f)| == Strings.Count(f.value, ',') + 1
    ensures forall i :: 0 <= i < |CompileField(f)| ==>
      CompileField(f)[i].Regex? && CompileField(f)[i].field == f.name && ',' !in CompileField(f)[i].pattern
    ensures Strings.Join(seq(|CompileField(f)|, i requires 0 <= i < |CompileField(f)| => CompileField(f)[i].pattern), ',') == f.value
  {
    var pieces := Strings.Split(f.value, ',');
    Strings.SplitShape(f.value, ',');
    Strings.JoinSplit(f.value, ',');
    var pats := seq(|CompileField(f)|, i requires 0 <= i < |CompileField(f)| => CompileField(f)[i].pattern);
    assert pats == pieces;
  }

  /** "array_string" emits exactly one `$in` holding the split list. */
  lemma ArrayStringField(f: Field)
    requires f.typ == "array_string"
    ensures |CompileField(f)| == 1 && CompileField(f)[0].In?
    ensures |CompileField(f)[0].values| == Strings.Count(f.value, ',') + 1
    ensures Strings.Join(CompileField(f)[0].values, ',') == f.value
  {
    Strings.SplitShape(f.value, ',');
    Strings.JoinSplit(f.value, ',');
  }

  /** "boolean"/"checkbox" compare with `true` only for the spellings
      `strconv.ParseBool` reads as true; anything unparseable means `false`. */
  lemma BooleanField(f: Field)
    requires f.typ == "boolean" || f.typ == "checkbox"
    ensures CompileField(f) == [EqOp(f.name, SBool(f.value in {"1", "t", "T", "TRUE", "true", "True"}))]
  {
  }

  /** "number" with an unparseable value (syntax or int64 overflow) compiles
      exactly as the value "0" does. */
  lemma NumberFieldDefault(f: Field)
    requires f.typ == "number" && Numbers.ParseInt64(f.value).None?
    ensures CompileField(f) == CompileField(f.(value := "0"))
  {
    assert Numbers.ParseInt64("0") == Some(0) by {
      Numbers.ParseFormatInt(0);
    }
  }

  /** "number" keeps every int64 the client writes in decimal. */
  lemma NumberFieldExact(f: Field, n: Numbers.int64)
    requires f.typ == "number" && f.value == Numbers.FormatInt(n)
    ensures CompileField(f) == [EqOp(f.name, SInt(n))]
  {
    Numbers.ParseFormatInt(n);
  }

  /** "number_range": an unparseable minimum is 0, an unparseable maximum is
      the largest int64, and the bounds are not ordered, so a reversed range
      matches nothing. */
  lemma NumberRangeField(f: Field, doc: Doc, rx: Regexes)
    requires f.typ == "number_range"
    ensures var c := CompileField(f)[0];
      |CompileField(f)| == 1 && c.Range?
      && (Numbers.ParseInt64(f.minValue).None? ==> c.lo == SInt(0))
      && (Numbers.ParseInt64(f.maxValue).None? ==> c.hi == SInt(0x7FFF_FFFF_FFFF_FFFF))
      && (c.lo.i > c.hi.i ==> Eval(doc, c, rx) == Some(false))
  {
  }

  // ---- group assembly -----------------------------------------------------

  /** Groups are compiled in input order: compiling a concatenation
      concatenates the compiled groups. */
  lemma {:induction false} CompileGroupsAppend(a: seq<FilterGroup>, b: seq<FilterGroup>)
    ensures CompileGroups(a + b) == CompileGroups(a) + CompileGroups(b)
  {
    if |a| > 0 {
      assert (a + b)[1..] == a[1..] + b;
      CompileGroupsAppend(a[1..], b);
    } else {
      assert a + b == b;
    }
  }

  predicate Contributes(g: FilterGroup) {
    |CompileFields(g.fields)| > 0
  }

  /** The number of groups that contribute. */
  function Contributing(gs: seq<FilterGroup>): nat {
    if |gs| == 0 then 0 else (if Contributes(gs[0]) then 1 else 0) + Contributing(gs[1..])
  }

  /** One entry per contributing group, each `{"$" + operator: items}`. */
  lemma {:induction false} CompileGroupsShape(gs: seq<FilterGroup>)
    ensures |CompileGroups(gs)| == Contributing(gs)
    ensures forall i :: 0 <= i < |CompileGroups(gs)| ==>
      CompileGroups(gs)[i].Combine? && |CompileGroups(gs)[i].key| > 0 && CompileGroups(gs)[i].key[0] == '$'
      && |CompileGroups(gs)[i].items| > 0
  {
    if |gs| > 0 {
      CompileGroupsShape(gs[1..]);
    }
  }

  /** The result has no `$and` key iff no group yields a condition; otherwise
      its `$and` holds one entry per contributing group. */
  lemma GetFilterShape(req: FilterRequest)
    ensures GetFilter(req).and.None? <==> Contributing(req.filters) == 0
    ensures GetFilter(req).and.Some? ==> |GetFilter(req).and.value| == Contributing(req.filters)
  {
    CompileGroupsShape(req.filters);
  }

  lemma {:induction false} CompileFieldWellFormed(f: Field)
    ensures AllWellFormed(CompileField(f))
  {
  }

  lemma {:induction false} CompileFieldsWellFormed(fs: seq<Field>)
    ensures AllWellFormed(CompileFields(fs))
  {
    if |fs| > 0 {
      CompileFieldWellFormed(fs[0]);
      CompileFieldsWellFormed(fs[1..]);
    }
  }

  lemma {:induction false} CompileGroupsWellFormed(gs: seq<FilterGroup>)
    ensures AllWellFormed(CompileGroups(gs))
  {
    if |gs| > 0 {
      CompileFieldsWellFormed(gs[0].fields);
      CompileGroupsWellFormed(gs[1..]);
    }
  }

  /** The compiled filter never holds an empty `$and`/`$or` array, whatever
      the client sends. */
  lemma GetFilterWellFormed(req: FilterRequest)
    ensures FilterWellFormed(GetFilter(req))
  {
    CompileGroupsWellFormed(req.filters);
  }

  // ---- meaning of the assembled filter --------------------------------------

  /** The logical operators, whose items the server evaluates. */
  predicate LogicalOperator(op: string) {
    op in {"and", "or", "nor"}
  }

  /** The operators MongoDB accepts at this position: the logical ones, and
      `comment`, whose array it ignores. */
  predicate KnownOperator(op: string) {
    LogicalOperator(op) || op == "comment"
  }

  /** Every raw `$regex` pattern among `cs` compiles. */
  predicate PatternsCompile(cs: seq<Cond>, rx: Regexes) {
    forall i :: 0 <= i < |cs| ==> cs[i].Regex? ==> rx.compiles(cs[i].pattern)
  }

  /** Whether the server accepts a group's entry: a `comment` group whatever
      it holds, a logical group when every pattern in it compiles. */
  predicate GroupAccepted(g: FilterGroup, rx: Regexes) {
    g.operator == "comment" || (LogicalOperator(g.operator) && PatternsCompile(CompileFields(g.fields), rx))
  }

  /** A field compiles to atomic conditions only. */
  lemma {:induction false} CompileFieldsAtomic(fs: seq<Field>)
    ensures forall i :: 0 <= i < |CompileFields(fs)| ==> !CompileFields(fs)[i].Combine?
  {
    if |fs| > 0 {
      CompileFieldsAtomic(fs[1..]);
      assert forall i :: 0 <= i < |CompileField(fs[0])| ==> !CompileField(fs[0])[i].Combine?;
    }
  }

  /** The server accepts a group's fields iff every raw pattern among them compiles. */
  lemma CompileFieldsAccepted(fs: seq<Field>, rx: Regexes)
    ensures AllAccepted(CompileFields(fs), rx) <==> PatternsCompile(CompileFields(fs), rx)
  {
    CompileFieldsAtomic(fs);
  }

  /** A contributing group is accepted by the server iff it is a `comment`
      group, or its operator is `and`, `or` or `nor` and every raw pattern in
      it compiles: the operator text itself is never checked by the code. */
  lemma GroupEvaluates(g: FilterGroup, doc: Doc, rx: Regexes)
    requires Contributes(g)
    ensures Eval(doc, CompileGroup(g)[0], rx).Some? <==> GroupAccepted(g, rx)
  {
    var items := CompileFields(g.fields);
    var c := Combine("$" + g.operator, items);
    assert CompileGroup(g)[0] == c;
    var k := "$" + g.operator;
    AcceptedIff(doc, c, rx);
    CompileFieldsAccepted(g.fields, rx);
    assert k[1..] == g.operator;
    assert k == "$comment" <==> g.operator == "comment" by {
      if k == "$comment" { assert g.operator == "$comment"[1..]; }
    }
    assert k in {"$and", "$or", "$nor"} <==> LogicalOperator(g.operator) by {
      if k == "$and" { assert g.operator == "$and"[1..]; }
      if k == "$or" { assert g.operator == "$or"[1..]; }
      if k == "$nor" { assert g.operator == "$nor"[1..]; }
    }
    assert Accepted(c, rx) <==> k == "$comment" || (k in {"$and", "$or", "$nor"} && AllAccepted(items, rx));
  }

  /** A `comment` group is ignored: it holds for every document, whatever its
      fields and patterns. */
  lemma CommentGroupIgnored(g: FilterGroup, doc: Doc, rx: Regexes)
    requires Contributes(g) && g.operator == "comment"
    ensures Eval(doc, CompileGroup(g)[0], rx) == Some(true)
  {
    assert CompileGroup(g)[0] == Combine("$" + g.operator, CompileFields(g.fields));
    assert "$" + g.operator == "$comment";
  }

  /** The compiled groups are accepted iff every contributing group is. */
  lemma {:induction false} CompileGroupsAccepted(gs: seq<FilterGroup>, doc: Doc, rx: Regexes)
    ensures AllAccepted(CompileGroups(gs), rx) <==> forall j :: 0 <= j < |gs| && Contributes(gs[j]) ==> GroupAccepted(gs[j], rx)
  {
    if |gs| > 0 {
      CompileGroupsAccepted(gs[1..], doc, rx);
      AllAcceptedAppend(CompileGroup(gs[0]), CompileGroups(gs[1..]), rx);
      if Contributes(gs[0]) {
        GroupEvaluates(gs[0], doc, rx);
        AcceptedIff(doc, CompileGroup(gs[0])[0], rx);
      }
      assert forall j :: 1 <= j < |gs| ==> gs[j] == gs[1..][j - 1];
      if forall j :: 0 <= j < |gs[1..]| && Contributes(gs[1..][j]) ==> GroupAccepted(gs[1..][j], rx) {
        forall j | 0 <= j < |gs| && j > 0 && Contributes(gs[j])
          ensures GroupAccepted(gs[j], rx)
        {
          assert gs[j] == gs[1..][j - 1];
        }
      }
    }
  }

  /** The query is accepted iff every contributing group is. */
  lemma GetFilterAccepted(req: FilterRequest, doc: Doc, rx: Regexes)
    ensures EvalFilter(doc, GetFilter(req), rx).Some? <==>
      forall j :: 0 <= j < |req.filters| && Contributes(req.filters[j]) ==> GroupAccepted(req.filters[j], rx)
  {
    var groups := CompileGroups(req.filters);
    CompileGroupsAccepted(req.filters, doc, rx);
    if |groups| > 0 {
      assert GetFilter(req) == Filter(Some(groups));
      FilterAcceptedIff(doc, groups, rx);
    } else {
      assert GetFilter(req) == Filter(None);
    }
  }

  /** A document matches the query iff it matches every contributing group. */
  lemma GetFilterMatches(req: FilterRequest, doc: Doc, rx: Regexes)
    ensures EvalFilter(doc, GetFilter(req), rx) == Some(true) <==>
      forall i :: 0 <= i < |CompileGroups(req.filters)| ==> Eval(doc, CompileGroups(req.filters)[i], rx) == Some(true)
  {
    var groups := CompileGroups(req.filters);
    if |groups| > 0 {
      var c := Combine("$and", groups);
      EvalAllIff(doc, c, groups, rx);
      assert GetFilter(req) == Filter(Some(groups));
      assert EvalFilter(doc, GetFilter(req), rx) == EvalAll(doc, c, groups, rx);
      if EvalAll(doc, c, groups, rx) == Some(true) {
        assert forall i :: 0 <= i < |groups| ==> Eval(doc, groups[i], rx) == Some(true);
      } else {
        var i :| 0 <= i < |groups| && Eval(doc, groups[i], rx) != Some(true);
        assert Eval(doc, CompileGroups(req.filters)[i], rx) != Some(true);
      }
    } else {
      assert GetFilter(req) == Filter(None);
    }
  }

  /** The query is accepted iff every contributing group is (see
      `GroupEvaluates`), and a document matches it iff it matches every
      contributing group: groups are ANDed. */
  lemma GroupsAreAnded(req: FilterRequest, doc: Doc, rx: Regexes)
    ensures EvalFilter(doc, GetFilter(req), rx).Some? <==>
      forall j :: 0 <= j < |req.filters| && Contributes(req.filters[j]) ==> GroupAccepted(req.filters[j], rx)
    ensures EvalFilter(doc, GetFilter(req), rx) == Some(true) <==>
      forall i :: 0 <= i < |CompileGroups(req.filters)| ==> Eval(doc, CompileGroups(req.filters)[i], rx) == Some(true)
  {
    GetFilterAccepted(req, doc, rx);
    GetFilterMatches(req, doc, rx);
  }

  /** The group at position `j`, when it contributes, is compiled into some
      position of the result. */
  lemma CompiledPosition(gs: seq<FilterGroup>, j: nat) returns (k: nat)
    requires j < |gs| && Contributes(gs[j])
    ensures k < |CompileGroups(gs)| && CompileGroups(gs)[k] == CompileGroup(gs[j])[0]
  {
    assert gs == gs[..j] + [gs[j]] + gs[j + 1..];
    CompileGroupsAppend(gs[..j] + [gs[j]], gs[j + 1..]);
    CompileGroupsAppend(gs[..j], [gs[j]]);
    assert CompileGroups([gs[j]]) == CompileGroup(gs[j]) + CompileGroups([gs[j]][1..]);
    k := |CompileGroups(gs[..j])|;
  }

  /** One contributing group with an unknown operator makes the server refuse
      the whole query, whatever the document. */
  lemma UnknownOperatorRefused(req: FilterRequest, j: nat, doc: Doc, rx: Regexes)
    requires j < |req.filters| && Contributes(req.filters[j]) && !KnownOperator(req.filters[j].operator)
    ensures EvalFilter(doc, GetFilter(req), rx) == None
  {
    var groups := CompileGroups(req.filters);
    var k := CompiledPosition(req.filters, j);
    GroupEvaluates(req.filters[j], doc, rx);
    var c := Combine("$and", groups);
    EvalAllIff(doc, c, groups, rx);
    assert GetFilter(req) == Filter(Some(groups));
    assert EvalFilter(doc, GetFilter(req), rx) == EvalAll(doc, c, groups, rx);
  }
}
