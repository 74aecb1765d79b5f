/**
 `Jira.Query`: a small syntax tree compiled to a JQL string. Every
 `compile()` in the source is declared `throws` but none of them throws, so
 compilation is modelled as a total function.
 */
module JiraQuery {
  import opened Results
  import opened Text

  datatype IssueKey = IssueKey(value: string)

  datatype Field = IssueField

  datatype Operator = Equal | NotEqual | In | NotIn

  datatype Value = Single(text: string) | Multiple(texts: seq<string>)

  datatype Rule = Rule(field: Field, op: Operator, value: Value)

  datatype Keyword = And | Or | Not | Empty | Null | OrderBy

  datatype Query = Query(rule: Rule)

  function CompileField(f: Field): string
  {
    match f
    case IssueField => "issue"
  }

  function CompileOperator(op: Operator): string
  {
    match op
    case Equal => "="
    case NotEqual => "!="
    case In => "in"
    case NotIn => "not in"
  }

  function CompileKeyword(k: Keyword): string
  {
    match k
    case And => "AND"
    case Or => "OR"
    case Not => "NOT"
    case Empty => "EMPTY"
    case Null => "NULL"
    case OrderBy => "ORDER BY"
  }

  /** The raw values of the enumerations are pairwise distinct, so compiling
      loses no information about which case was meant. */
  lemma RawValuesDistinct(op1: Operator, op2: Operator, k1: Keyword, k2: Keyword)
    ensures op1 != op2 ==> CompileOperator(op1) != CompileOperator(op2)
    ensures k1 != k2 ==> CompileKeyword(k1) != CompileKeyword(k2)
  {
  }

  /** `"\"" + v + "\""`. */
  function Quote(v: string): string
  {
    ['"'] + v + ['"']
  }

  function Quoted(vs: seq<string>): (qs: seq<string>)
    ensures |qs| == |vs|
    ensures forall i :: 0 <= i < |vs| ==> qs[i] == Quote(vs[i])
  {
    seq(|vs|, i requires 0 <= i < |vs| => Quote(vs[i]))
  }

  /** `Value.compile()`: a single value verbatim; a list as a parenthesised,
      comma-joined (no spaces) list of double-quoted values. */
  function CompileValue(v: Value): (s: string)
    ensures v.Single? ==> s == v.text
    ensures v.Multiple? ==> |s| >= 2 && s[0] == '(' && s[|s| - 1] == ')'
    ensures v == Multiple([]) ==> s == "()"
  {
    match v
    case Single(text) => text
    case Multiple(texts) => "(" + Join(Quoted(texts), ",") + ")"
  }

  /** `Rule.compile()`: field, operator and value separated by single spaces.
      The text reads back as the rule's field, its operator and the compiled
      value. */
  function CompileRule(r: Rule): (s: string)
    ensures ReadRule(s) == Some((r.field, r.op, CompileValue(r.value)))
  {
    var s := CompileField(r.field) + " " + CompileOperator(r.op) + " " + CompileValue(r.value);
    ReadRuleCompiled(r, s);
    s
  }

  /** `Query.compile()`: the compiled rule. */
  function Compile(q: Query): (s: string)
    ensures ReadRule(s) == Some((q.rule.field, q.rule.op, CompileValue(q.rule.value)))
  {
    CompileRule(q.rule)
  }

  // ---------------------------------------------------------------------------
  // Reading a compiled rule back
  // ---------------------------------------------------------------------------

  /** Reads an operator and the space after it off the front of `s`. No
      operator's text followed by a space begins another's, so at most one
      case applies. */
  function ReadOperator(s: string): Option<(Operator, string)>
  {
    if |s| >= 2 && s[..2] == "= " then Some((Equal, s[2..]))
    else if |s| >= 3 && s[..3] == "!= " then Some((NotEqual, s[3..]))
    else if |s| >= 3 && s[..3] == "in " then Some((In, s[3..]))
    else if |s| >= 7 && s[..7] == "not in " then Some((NotIn, s[7..]))
    else None
  }

  /** Reads `field op value` back into its field, its operator and the text
      of its value. */
  function ReadRule(s: string): Option<(Field, Operator, string)>
  {
    if |s| >= 6 && s[..6] == "issue " then
      match ReadOperator(s[6..])
      case Some((op, rest)) => Some((IssueField, op, rest))
      case None => None
    else None
  }

  lemma ReadOperatorCompiled(op: Operator, rest: string)
    ensures ReadOperator(CompileOperator(op) + " " + rest) == Some((op, rest))
  {
    var s := CompileOperator(op) + " " + rest;
    var n := |CompileOperator(op)| + 1;
    assert s[..n] == CompileOperator(op) + " " && s[n..] == rest;
    match op
    case Equal =>
    case NotEqual => assert s[0] == '!';
    case In => assert s[0] == 'i' && s[1] == 'n';
    case NotIn => assert s[0] == 'n' && s[1] == 'o' && s[2] == 't';
  }

  lemma ReadRuleCompiled(r: Rule, s: string)
    requires s == CompileField(r.field) + " " + CompileOperator(r.op) + " " + CompileValue(r.value)
    ensures ReadRule(s) == Some((r.field, r.op, CompileValue(r.value)))
  {
    var tail := CompileOperator(r.op) + " " + CompileValue(r.value);
    assert s == "issue " + tail;
    assert s[..6] == "issue " && s[6..] == tail;
    ReadOperatorCompiled(r.op, CompileValue(r.value));
    assert ReadOperator(s[6..]) == Some((r.op, CompileValue(r.value)));
    assert r.field == IssueField;
  }

  function KeyValues(ids: seq<IssueKey>): (vs: seq<string>)
    ensures |vs| == |ids|
    ensures forall i :: 0 <= i < |ids| ==> vs[i] == ids[i].value
  {
    seq(|ids|, i requires 0 <= i < |ids| => ids[i].value)
  }

  /** `Query.issuesWithIds(ids)`: `issue in (...)` over the keys, in order. */
  function IssuesWithIds(ids: seq<IssueKey>): (q: Query)
    ensures q.rule.field == IssueField && q.rule.op == In && q.rule.value.Multiple?
    ensures q.rule.value.texts == KeyValues(ids)
  {
    Query(Rule(IssueField, In, Multiple(KeyValues(ids))))
  }

  // ---------------------------------------------------------------------------
  // Reading a compiled list back
  // ---------------------------------------------------------------------------

  /** Strips the surrounding quotes of one list entry. */
  function Unquote(q: string): string
  {
    if |q| >= 2 then q[1..|q| - 1] else q
  }

  /** Reads `("v1","v2",...)` back into its values, or nothing when the text
      is not parenthesised. */
  function ParseValueList(s: string): (vs: Option<seq<string>>)
  {
    if |s| >= 2 && s[0] == '(' && s[|s| - 1] == ')' then
      Some(Unquoted(Split(s[1..|s| - 1], ',')))
    else None
  }

  function Unquoted(entries: seq<string>): (vs: seq<string>)
    ensures |vs| == |entries|
    ensures forall i :: 0 <= i < |entries| ==> vs[i] == Unquote(entries[i])
  {
    seq(|entries|, i requires 0 <= i < |entries| => Unquote(entries[i]))
  }

  /** A list of values none of which contains a comma compiles to a text
      that reads back as the same values in the same order: the compiled
      list is faithful to its input. */
  lemma {:induction false} ValueListRoundTrip(vs: seq<string>)
    requires forall i :: 0 <= i < |vs| ==> ',' !in vs[i]
    ensures ParseValueList(CompileValue(Multiple(vs))) == Some(vs)
  {
    var qs := Quoted(vs);
    forall i | 0 <= i < |qs|
      ensures |qs[i]| > 0 && ',' !in qs[i]
    {
      assert qs[i] == ['"'] + vs[i] + ['"'];
    }
    SplitJoin(qs, ',');
    var s := CompileValue(Multiple(vs));
    assert s[1..|s| - 1] == Join(qs, [',']);
    forall i | 0 <= i < |vs|
      ensures Unquote(qs[i]) == vs[i]
    {
      assert qs[i][1..|qs[i]| - 1] == vs[i];
    }
    assert Unquoted(qs) == vs;
  }

  /** `issuesWithIds(ids).compile()` is `issue in ` followed by a list that
      reads back as the keys of `ids`, in order. */
  lemma IssuesWithIdsCompiles(ids: seq<IssueKey>)
    requires forall i :: 0 <= i < |ids| ==> ',' !in ids[i].value
    ensures |Compile(IssuesWithIds(ids))| >= 9
    ensures Compile(IssuesWithIds(ids))[..9] == "issue in "
    ensures ParseValueList(Compile(IssuesWithIds(ids))[9..]) == Some(KeyValues(ids))
    ensures ids == [] ==> Compile(IssuesWithIds(ids)) == "issue in ()"
  {
    var v := CompileValue(Multiple(KeyValues(ids)));
    assert Compile(IssuesWithIds(ids)) == "issue in " + v;
    assert ("issue in " + v)[9..] == v;
    ValueListRoundTrip(KeyValues(ids));
  }
}
