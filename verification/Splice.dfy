/**
 The generated activation block: rendering it, splicing it between its two markers in a
 document, and the check that later extracts it again.
 */
module Splice {
  import opened Wrappers
  import opened Text

  // Long texts are concatenations of short literals, in which the solver can still look for a
  // character one by one.

  const MARKER_TAIL: string := " GENERATED" + " M1" + " ACTIVATION" + " CONTRACT" + " -->"
  const BLOCK_START: string := "<!-- BEGIN" + MARKER_TAIL
  const BLOCK_END: string := "<!-- END" + MARKER_TAIL

  // ----- Searching -----

  /** `text.index(m)`, where an absent marker raises. */
  function Find(text: string, m: string): (r: Option<nat>)
    ensures r.Some? ==> OccursAt(text, m, r.value) && forall j :: OccursAt(text, m, j) ==> r.value <= j
    ensures r.None? ==> forall j :: !OccursAt(text, m, j)
  {
    FindFrom(text, m, 0)
  }

  function FindFrom(text: string, m: string, from: nat): (r: Option<nat>)
    requires from <= |text|
    ensures r.Some? ==> from <= r.value && OccursAt(text, m, r.value)
                        && forall j :: from <= j && OccursAt(text, m, j) ==> r.value <= j
    ensures r.None? ==> forall j :: from <= j ==> !OccursAt(text, m, j)
    decreases |text| - from
  {
    if OccursAt(text, m, from) then Some(from)
    else if from == |text| then None
    else FindFrom(text, m, from + 1)
  }

  /** `text.count(m)`: non-overlapping occurrences from the left. */
  function Count(text: string, m: string): nat
    requires m != []
  {
    match Find(text, m)
    case None => 0
    case Some(i) => 1 + Count(text[i + |m|..], m)
  }

  ghost predicate UniqueAt(text: string, m: string, p: int) {
    OccursAt(text, m, p) && forall j :: OccursAt(text, m, j) ==> j == p
  }

  /** A marker starts with `<` and has no other, so two of its occurrences cannot overlap. */
  ghost predicate IsMarker(m: string) {
    m != [] && m[0] == '<' && '<' !in m[1..]
  }

  lemma MarkerHead(text: string, m: string, p: int, k: int)
    requires IsMarker(m) && OccursAt(text, m, p) && p < k < p + |m|
    ensures text[k] != '<'
  {
    assert text[k] == m[k - p] == m[1..][k - p - 1];
  }

  /** Two occurrences of a marker do not overlap. */
  lemma NoOverlap(text: string, m: string, i: int, j: int)
    requires IsMarker(m) && OccursAt(text, m, i) && OccursAt(text, m, j) && i < j
    ensures i + |m| <= j
  {
    assert text[j..j + |m|][0] == text[j];
    if j < i + |m| {
      MarkerHead(text, m, i, j);
    }
  }

  lemma OccursAfter(text: string, m: string, from: nat, j: int)
    requires from <= |text|
    ensures OccursAt(text[from..], m, j) <==> 0 <= j && OccursAt(text, m, j + from)
  {
    var rest := text[from..];
    if 0 <= j && j + from <= |text| - |m| {
      var inner, outer := rest[j..j + |m|], text[j + from..j + from + |m|];
      assert forall k :: 0 <= k < |m| ==> inner[k] == outer[k];
      assert inner == outer;
    }
  }

  lemma CountUnfold(text: string, m: string)
    requires m != []
    ensures Find(text, m).None? ==> Count(text, m) == 0
    ensures Find(text, m).Some? ==> Count(text, m) == 1 + Count(text[Find(text, m).value + |m|..], m)
  {}

  lemma CountZeroIff(text: string, m: string)
    requires m != []
    ensures Count(text, m) == 0 <==> forall j :: !OccursAt(text, m, j)
  {
    hide Find;
    CountUnfold(text, m);
  }

  /** Counting one marker is having exactly one place where it occurs. */
  lemma CountOneIff(text: string, m: string, p: int)
    requires IsMarker(m)
    ensures Count(text, m) == 1 && Find(text, m) == Some(p) <==> UniqueAt(text, m, p)
  {
    hide Find, Count, OccursAt, IsMarker;
    MarkerNotEmpty(m);
    match Find(text, m)
    case None =>
    case Some(i) =>
      CountUnfold(text, m);
      FoundFits(text, m, i);
      var rest := text[i + |m|..];
      CountZeroIff(rest, m);
      forall j ensures OccursAt(rest, m, j) <==> 0 <= j && OccursAt(text, m, j + i + |m|) {
        OccursAfter(text, m, i + |m|, j);
      }
      forall j | OccursAt(text, m, j) && j != i ensures OccursAt(rest, m, j - i - |m|) {
        NoOverlap(text, m, i, j);
        OccursAfter(text, m, i + |m|, j - i - |m|);
      }
      assert UniqueAt(text, m, i) <==> Count(rest, m) == 0 by {
        if UniqueAt(text, m, i) {
          forall j ensures !OccursAt(rest, m, j) {
            OccursAfter(text, m, i + |m|, j);
          }
        }
      }
  }

  lemma MarkerNotEmpty(m: string)
    requires IsMarker(m)
    ensures m != []
  {}

  lemma FoundFits(text: string, m: string, i: int)
    requires OccursAt(text, m, i)
    ensures 0 <= i && i + |m| <= |text|
  {}

  // ----- Text no marker can start in -----

  /** Whatever follows `s`, no occurrence of `m` begins inside `s`. */
  ghost predicate Inert(s: string, m: string) {
    forall rest, p :: OccursAt(s + rest, m, p) ==> p >= |s|
  }

  lemma InertGlue(s: string, m: string)
    requires IsMarker(m) && '<' !in s
    ensures Inert(s, m)
  {
    forall rest, p | OccursAt(s + rest, m, p) ensures p >= |s| {
      assert (s + rest)[p] == m[0];
    }
  }

  ghost predicate Free(field: string, m: string) {
    forall p :: !OccursAt(field, m, p)
  }

  /** A field without the marker, closed by a character the marker does not contain. */
  lemma InertField(field: string, m: string, c: char)
    requires IsMarker(m) && c !in m && Free(field, m)
    ensures Inert(field + [c], m)
  {
    forall rest, p | OccursAt(field + [c] + rest, m, p) ensures p >= |field| + 1 {
      var text := field + [c] + rest;
      assert text == field + ([c] + rest) && text[|field|] == c;
      if p + |m| <= |field| {
        OccursInFront(field, [c] + rest, m, p);
      } else if p <= |field| {
        CharInside(text, m, p, |field|);
      }
    }
  }

  lemma OccursInFront(a: string, b: string, m: string, p: int)
    requires OccursAt(a + b, m, p) && p + |m| <= |a|
    ensures OccursAt(a, m, p)
  {
    assert a[p..p + |m|] == (a + b)[p..p + |m|];
  }

  lemma CharInside(text: string, m: string, p: int, k: int)
    requires OccursAt(text, m, p) && p <= k < p + |m|
    ensures text[k] in m
  {
    assert text[k] == text[p..p + |m|][k - p];
  }

  lemma InertJoin(a: string, b: string, m: string)
    requires Inert(a, m) && Inert(b, m)
    ensures Inert(a + b, m)
  {
    forall rest, p | OccursAt(a + b + rest, m, p) ensures p >= |a + b| {
      assert a + b + rest == a + (b + rest);
      assert OccursAt(a + (b + rest), m, p);
      OccursShift(a, b + rest, m, p);
    }
  }

  lemma OccursShift(a: string, b: string, m: string, p: int)
    requires p >= |a|
    ensures OccursAt(a + b, m, p) <==> OccursAt(b, m, p - |a|)
  {
    if p + |m| <= |a + b| {
      assert (a + b)[p..p + |m|] == b[p - |a|..p - |a| + |m|];
    }
  }

  // ----- Rendering -----

  datatype Task = Task(id: string, state: string)

  datatype Document = Document(
    status: string,
    signature: string,
    authorized: seq<Task>,
    unauthorized: seq<Task>,
    exclusions: seq<(string, seq<string>)>,
    nonNegotiables: seq<string>,
    ciSmoke: seq<(string, string)>,
    scheduled: seq<(string, string)>)

  function TaskLine(task: Task): string {
    "- `" + (task.id + ['`']) + ": `" + (task.state + ['`'])
  }

  function Quoted(item: string): string {
    "`" + (item + ['`'])
  }

  function Pair(pair: (string, string)): string {
    pair.0 + "=" + pair.1
  }

  /** `separator.join(items)`. */
  function Joined(items: seq<string>, separator: string): string {
    if items == [] then [] else if |items| == 1 then items[0]
    else items[0] + separator + Joined(items[1..], separator)
  }

  function Map<A>(f: A -> string, xs: seq<A>): (ys: seq<string>)
    ensures |ys| == |xs| && forall i :: 0 <= i < |xs| ==> ys[i] == f(xs[i])
  {
    seq(|xs|, i requires 0 <= i < |xs| => f(xs[i]))
  }

  function ExclusionLine(group: (string, seq<string>)): string {
    "- " + (group.0 + [':']) + " " + Joined(Map(Quoted, group.1), ", ")
  }

  function BudgetLine(lane: string, values: seq<(string, string)>): string {
    "- `" + lane + "`: " + Joined(Map(Pair, values), ", ")
  }

  function ItemLine(item: string): string {
    "- " + Quoted(item)
  }

  const ORIGIN_LINE: string := "This block is generated from " + "`m1-v0.1-support-matrix" + ".activation.json`."
  const NORM_LINE: string := "No authorization claim " + "outside this block is normative."
  const BUDGET_CLAIM: string := "- Budgets: harness safety controls only" + "; never product limits"

  const PREAMBLE: seq<string> := [
    "## Generated normative activation contract",
    "",
    ORIGIN_LINE,
    NORM_LINE,
    ""]

  const CLAIMS: seq<string> := [
    "- Product compatibility evidence: `false`",
    BUDGET_CLAIM]

  /** The lines between the two markers. */
  function BodyLines(doc: Document): seq<string> {
    PREAMBLE
    + ["- Status: `" + (doc.status + ['`']), "- Signature: `" + (doc.signature + ['`'])]
    + CLAIMS
    + ["", "### Authorized tasks"]
    + Map(TaskLine, doc.authorized)
    + ["", "### Unauthorized tasks"]
    + Map(TaskLine, doc.unauthorized)
    + ["", "### Exclusions A-D"]
    + Map(ExclusionLine, doc.exclusions)
    + ["", "### Non-negotiables"]
    + Map(ItemLine, doc.nonNegotiables)
    + ["", "### Deterministic harness budgets"]
    + [BudgetLine("ci_smoke", doc.ciSmoke), BudgetLine("scheduled", doc.scheduled)]
  }

  /** The block, from marker to marker. */
  function Rendered(doc: Document): string {
    BLOCK_START + "\n" + Frame(BodyLines(doc)) + BLOCK_END
  }

  lemma {:induction false} JoinedIsFramed(lines: seq<string>, last: string)
    ensures Joined(lines + [last], "\n") == Frame(lines) + last
  {
    hide Frame;
    if lines == [] {
      assert lines + [last] == [last];
      FrameNone();
    } else {
      assert (lines + [last])[1..] == lines[1..] + [last];
      JoinedIsFramed(lines[1..], last);
      assert lines == [lines[0]] + lines[1..];
      FrameHead(lines[0], lines[1..]);
    }
  }

  /** `_render_m1_activation_block`: the lines are collected step by step and joined. */
  method RenderBlock(doc: Document) returns (block: string)
    ensures block == Rendered(doc)
  {
    hide Frame, Joined, TaskLine, ExclusionLine, ItemLine, BudgetLine, BLOCK_START, BLOCK_END, PREAMBLE, CLAIMS;
    var lines := PREAMBLE;
    lines := lines + ["- Status: `" + (doc.status + ['`']), "- Signature: `" + (doc.signature + ['`'])];
    lines := lines + CLAIMS;
    lines := lines + ["", "### Authorized tasks"];
    lines := Extend(lines, TaskLine, doc.authorized);
    lines := lines + ["", "### Unauthorized tasks"];
    lines := Extend(lines, TaskLine, doc.unauthorized);
    lines := lines + ["", "### Exclusions A-D"];
    lines := Extend(lines, ExclusionLine, doc.exclusions);
    lines := lines + ["", "### Non-negotiables"];
    lines := Extend(lines, ItemLine, doc.nonNegotiables);
    lines := lines + ["", "### Deterministic harness budgets"];
    lines := lines + [BudgetLine("ci_smoke", doc.ciSmoke), BudgetLine("scheduled", doc.scheduled)];
    assert lines == BodyLines(doc);
    block := Joined([BLOCK_START] + lines + [BLOCK_END], "\n");
    JoinedIsFramed([BLOCK_START] + BodyLines(doc), BLOCK_END);
    FrameHead(BLOCK_START, BodyLines(doc));
  }

  /** `lines.extend(f(x) for x in xs)`. */
  method Extend<A>(start: seq<string>, f: A -> string, xs: seq<A>) returns (lines: seq<string>)
    ensures lines == start + Map(f, xs)
  {
    lines := start;
    for i := 0 to |xs|
      invariant |lines| == |start| + i && lines[..|start|] == start
      invariant forall k :: 0 <= k < i ==> lines[|start| + k] == f(xs[k])
    {
      lines := lines + [f(xs[i])];
    }
  }

  // ----- A rendered block holds each marker once -----

  /** No field of the document contains the marker. */
  ghost predicate FieldsFree(doc: Document, m: string) {
    && Free(doc.status, m) && Free(doc.signature, m)
    && (forall i :: 0 <= i < |doc.authorized| ==> Free(doc.authorized[i].id, m) && Free(doc.authorized[i].state, m))
    && (forall i :: 0 <= i < |doc.unauthorized| ==>
          Free(doc.unauthorized[i].id, m) && Free(doc.unauthorized[i].state, m))
    && (forall i :: 0 <= i < |doc.exclusions| ==> Free(doc.exclusions[i].0, m))
    && (forall i, k :: 0 <= i < |doc.exclusions| && 0 <= k < |doc.exclusions[i].1| ==> Free(doc.exclusions[i].1[k], m))
    && (forall i :: 0 <= i < |doc.nonNegotiables| ==> Free(doc.nonNegotiables[i], m))
    && PairsFree(doc.ciSmoke, m) && PairsFree(doc.scheduled, m)
  }

  ghost predicate PairsFree(pairs: seq<(string, string)>, m: string) {
    forall i :: 0 <= i < |pairs| ==> Free(pairs[i].0, m) && Free(pairs[i].1, m)
  }

  /** The marker contains none of the characters that close a field. */
  ghost predicate ClosersAbsent(m: string) {
    '`' !in m && ':' !in m && '=' !in m && ',' !in m && '\n' !in m
  }

  ghost predicate InertLine(line: string, m: string) {
    Inert(line + "\n", m)
  }

  lemma TaskLineInert(task: Task, m: string)
    requires IsMarker(m) && ClosersAbsent(m) && Free(task.id, m) && Free(task.state, m)
    ensures InertLine(TaskLine(task), m)
  {
    hide Inert, IsMarker;
    InertGlue("- `", m);
    InertField(task.id, m, '`');
    InertGlue(": `", m);
    InertField(task.state, m, '`');
    InertGlue("\n", m);
    InertJoin("- `", task.id + ['`'], m);
    InertJoin("- `" + (task.id + ['`']), ": `", m);
    InertJoin("- `" + (task.id + ['`']) + ": `", task.state + ['`'], m);
    InertJoin(TaskLine(task), "\n", m);
  }

  lemma QuotedInert(item: string, m: string)
    requires IsMarker(m) && ClosersAbsent(m) && Free(item, m)
    ensures Inert(Quoted(item), m)
  {
    hide Inert, IsMarker;
    InertGlue("`", m);
    InertField(item, m, '`');
    InertJoin("`", item + ['`'], m);
  }

  lemma PrefixedInert(prefix: string, item: string, m: string)
    requires IsMarker(m) && ClosersAbsent(m) && Free(item, m) && '<' !in prefix
    ensures InertLine(prefix + (item + ['`']), m)
  {
    hide Inert, IsMarker;
    InertGlue(prefix, m);
    InertField(item, m, '`');
    InertJoin(prefix, item + ['`'], m);
    InertGlue("\n", m);
    InertJoin(prefix + (item + ['`']), "\n", m);
  }

  lemma GlueLineInert(line: string, m: string)
    requires IsMarker(m) && '<' !in line
    ensures InertLine(line, m)
  {
    hide Inert;
    InertGlue(line + "\n", m);
  }

  lemma {:induction false} QuotedListInert(items: seq<string>, m: string)
    requires IsMarker(m) && ClosersAbsent(m) && forall k :: 0 <= k < |items| ==> Free(items[k], m)
    ensures InertLine(Joined(Map(Quoted, items), ", "), m)
  {
    hide Inert, IsMarker, Quoted, Free;
    InertGlue("\n", m);
    if items == [] {
      assert [] + "\n" == "\n";
    } else {
      QuotedInert(items[0], m);
      if |items| == 1 {
        InertJoin(Quoted(items[0]), "\n", m);
      } else {
        var tail := Joined(Map(Quoted, items[1..]), ", ");
        assert Map(Quoted, items)[1..] == Map(Quoted, items[1..]);
        QuotedListInert(items[1..], m);
        InertGlue(", ", m);
        InertJoin(Quoted(items[0]), ", ", m);
        InertJoin(Quoted(items[0]) + ", ", tail + "\n", m);
        assert Quoted(items[0]) + ", " + (tail + "\n") == Quoted(items[0]) + ", " + tail + "\n";
      }
    }
  }

  lemma {:induction false} PairListInert(pairs: seq<(string, string)>, m: string)
    requires IsMarker(m) && ClosersAbsent(m) && PairsFree(pairs, m)
    ensures InertLine(Joined(Map(Pair, pairs), ", "), m)
  {
    hide Inert, IsMarker, Free;
    InertGlue("\n", m);
    if pairs == [] {
      assert [] + "\n" == "\n";
    } else {
      var key, value := pairs[0].0, pairs[0].1;
      InertField(key, m, '=');
      if |pairs| == 1 {
        InertField(value, m, '\n');
        InertJoin(key + ['='], value + ['\n'], m);
        assert key + ['='] + (value + ['\n']) == Pair(pairs[0]) + "\n";
      } else {
        var tail := Joined(Map(Pair, pairs[1..]), ", ");
        assert Map(Pair, pairs)[1..] == Map(Pair, pairs[1..]);
        PairListInert(pairs[1..], m);
        InertField(value, m, ',');
        InertJoin(key + ['='], value + [','], m);
        InertGlue(" ", m);
        InertJoin(key + ['='] + (value + [',']), " ", m);
        InertJoin(key + ['='] + (value + [',']) + " ", tail + "\n", m);
        assert key + ['='] + (value + [',']) + " " + (tail + "\n") == Pair(pairs[0]) + ", " + tail + "\n";
      }
    }
  }

  lemma ExclusionLineInert(group: (string, seq<string>), m: string)
    requires IsMarker(m) && ClosersAbsent(m) && Free(group.0, m)
    requires forall k :: 0 <= k < |group.1| ==> Free(group.1[k], m)
    ensures InertLine(ExclusionLine(group), m)
  {
    hide Inert, IsMarker, Joined;
    var list := Joined(Map(Quoted, group.1), ", ");
    InertGlue("- ", m);
    InertField(group.0, m, ':');
    InertJoin("- ", group.0 + [':'], m);
    InertGlue(" ", m);
    InertJoin("- " + (group.0 + [':']), " ", m);
    QuotedListInert(group.1, m);
    InertJoin("- " + (group.0 + [':']) + " ", list + "\n", m);
    assert "- " + (group.0 + [':']) + " " + (list + "\n") == ExclusionLine(group) + "\n";
  }

  lemma BudgetLineInert(lane: string, values: seq<(string, string)>, m: string)
    requires IsMarker(m) && ClosersAbsent(m) && PairsFree(values, m) && '<' !in lane
    ensures InertLine(BudgetLine(lane, values), m)
  {
    hide Inert, Joined;
    var list := Joined(Map(Pair, values), ", ");
    InertGlue("- `" + lane + "`: ", m);
    PairListInert(values, m);
    InertJoin("- `" + lane + "`: ", list + "\n", m);
    assert "- `" + lane + "`: " + (list + "\n") == BudgetLine(lane, values) + "\n";
  }

  ghost predicate LinesInert(lines: seq<string>, m: string) {
    forall i :: 0 <= i < |lines| ==> InertLine(lines[i], m)
  }

  lemma {:induction false} FrameInert(lines: seq<string>, m: string)
    requires LinesInert(lines, m)
    ensures Inert(Frame(lines), m)
  {
    hide Inert;
    if lines == [] {
      NothingInert(m);
    } else {
      var init, last := lines[..|lines| - 1], lines[|lines| - 1];
      assert InertLine(last, m);
      FrameInert(init, m);
      InertJoin(Frame(init), last + "\n", m);
    }
  }

  lemma NothingInert(m: string)
    ensures Inert([], m)
  {}

  const HEADINGS: seq<string> := [
    "", "### Authorized tasks", "### Unauthorized tasks", "### Exclusions A-D",
    "### Non-negotiables", "### Deterministic harness budgets"]

  lemma PreambleInert(m: string)
    requires IsMarker(m)
    ensures LinesInert(PREAMBLE, m)
  {
    hide InertLine, IsMarker;
    TitleInert(m);
    NormInert(m);
    OriginInert(m);
  }

  lemma TitleInert(m: string)
    requires IsMarker(m)
    ensures InertLine("## Generated normative activation contract", m) && InertLine("", m)
  {
    hide InertLine, IsMarker;
    GlueLineInert("## Generated normative activation contract", m);
    GlueLineInert("", m);
  }

  lemma NormInert(m: string)
    requires IsMarker(m)
    ensures InertLine(NORM_LINE, m)
  {
    hide InertLine, IsMarker;
    GlueLineInert(NORM_LINE, m);
  }

  lemma OriginInert(m: string)
    requires IsMarker(m)
    ensures InertLine(ORIGIN_LINE, m)
  {
    hide Inert, IsMarker;
    GlueLineInert(ORIGIN_LINE, m);
  }

  lemma HeadingsInert(m: string)
    requires IsMarker(m)
    ensures LinesInert(HEADINGS, m)
  {
    hide Inert, IsMarker;
    GlueLineInert("", m);
    GlueLineInert("### Authorized tasks", m);
    GlueLineInert("### Unauthorized tasks", m);
    GlueLineInert("### Exclusions A-D", m);
    GlueLineInert("### Non-negotiables", m);
    GlueLineInert("### Deterministic harness budgets", m);
  }

  lemma ClaimsInert(m: string)
    requires IsMarker(m)
    ensures LinesInert(CLAIMS, m)
  {
    hide InertLine, IsMarker;
    EvidenceClaimInert(m);
    BudgetClaimInert(m);
  }

  lemma EvidenceClaimInert(m: string)
    requires IsMarker(m)
    ensures InertLine("- Product compatibility evidence: `false`", m)
  {
    hide InertLine, IsMarker;
    GlueLineInert("- Product compatibility evidence: `false`", m);
  }

  lemma BudgetClaimInert(m: string)
    requires IsMarker(m)
    ensures InertLine(BUDGET_CLAIM, m)
  {
    hide InertLine, IsMarker;
    GlueLineInert(BUDGET_CLAIM, m);
  }

  lemma BodyInert(doc: Document, m: string)
    requires IsMarker(m) && ClosersAbsent(m) && FieldsFree(doc, m)
    ensures LinesInert(BodyLines(doc), m)
  {
    hide IsMarker, ClosersAbsent, InertLine, Free, TaskLine, ExclusionLine, ItemLine, BudgetLine, PREAMBLE, CLAIMS;
    PreambleInert(m);
    HeadingsInert(m);
    ClaimsInert(m);
    assert InertLine(HEADINGS[0], m) && InertLine(HEADINGS[1], m) && InertLine(HEADINGS[2], m);
    assert InertLine(HEADINGS[3], m) && InertLine(HEADINGS[4], m) && InertLine(HEADINGS[5], m);
    PrefixedInert("- Status: `", doc.status, m);
    PrefixedInert("- Signature: `", doc.signature, m);
    TaskLinesInert(doc.authorized, m);
    TaskLinesInert(doc.unauthorized, m);
    ListLinesInert(doc, m);
    BudgetLineInert("ci_smoke", doc.ciSmoke, m);
    BudgetLineInert("scheduled", doc.scheduled, m);
  }

  lemma TaskLinesInert(tasks: seq<Task>, m: string)
    requires IsMarker(m) && ClosersAbsent(m)
    requires forall i :: 0 <= i < |tasks| ==> Free(tasks[i].id, m) && Free(tasks[i].state, m)
    ensures LinesInert(Map(TaskLine, tasks), m)
  {
    hide IsMarker, ClosersAbsent, InertLine, Free, TaskLine;
    forall i | 0 <= i < |tasks| ensures InertLine(Map(TaskLine, tasks)[i], m) {
      TaskLineInert(tasks[i], m);
    }
  }

  lemma ListLinesInert(doc: Document, m: string)
    requires IsMarker(m) && ClosersAbsent(m) && FieldsFree(doc, m)
    ensures LinesInert(Map(ExclusionLine, doc.exclusions), m) && LinesInert(Map(ItemLine, doc.nonNegotiables), m)
  {
    hide IsMarker, ClosersAbsent, InertLine, Free, ExclusionLine, ItemLine;
    forall i | 0 <= i < |doc.exclusions| ensures InertLine(Map(ExclusionLine, doc.exclusions)[i], m) {
      ExclusionLineInert(doc.exclusions[i], m);
    }
    forall i | 0 <= i < |doc.nonNegotiables| ensures InertLine(Map(ItemLine, doc.nonNegotiables)[i], m) {
      ItemLineInert(doc.nonNegotiables[i], m);
    }
  }

  lemma ItemLineInert(item: string, m: string)
    requires IsMarker(m) && ClosersAbsent(m) && Free(item, m)
    ensures InertLine(ItemLine(item), m)
  {
    hide InertLine, IsMarker, ClosersAbsent, Free;
    PrefixedInert("- `", item, m);
    assert "- `" + (item + ['`']) == ItemLine(item);
  }

  // ----- Splicing and checking -----

  /** The splice of the activation-block writer; a missing marker raises. */
  function Spliced(text: string, doc: Document): Result<string, string> {
    match Find(text, BLOCK_START)
    case None => Err("begin marker missing")
    case Some(start) =>
      match Find(text, BLOCK_END)
      case None => Err("end marker missing")
      case Some(end) => Ok(text[..start] + Rendered(doc) + text[end + |BLOCK_END|..])
  }

  /** The block checks of the activation-contract loader. */
  predicate Accepts(text: string, doc: Document) {
    && Count(text, BLOCK_START) == 1 && Count(text, BLOCK_END) == 1
    && var start, end := Find(text, BLOCK_START), Find(text, BLOCK_END);
       start.Some? && end.Some?
       && (if start.value <= end.value + |BLOCK_END| then text[start.value..end.value + |BLOCK_END|] else [])
          == Rendered(doc)
  }

  lemma MarkerFacts()
    ensures IsMarker(BLOCK_START) && IsMarker(BLOCK_END)
    ensures ClosersAbsent(BLOCK_START) && ClosersAbsent(BLOCK_END)
    ensures |BLOCK_START| > 5 && |BLOCK_END| > 5 && BLOCK_START[5] != BLOCK_END[5]
  {
    hide MARKER_TAIL;
    TailFacts();
    assert BLOCK_START[1..] == "!-- BEGIN" + MARKER_TAIL;
    assert BLOCK_END[1..] == "!-- END" + MARKER_TAIL;
  }

  /** Free of `<` and of every closing character. */
  ghost predicate Plain(s: string) {
    ClosersAbsent(s) && '<' !in s
  }

  lemma PlainJoin(a: string, b: string)
    requires Plain(a) && Plain(b)
    ensures Plain(a + b)
  {}

  lemma PlainFirst()
    ensures Plain(" GENERATED")
  {}

  lemma PlainShort()
    ensures Plain(" M1") && Plain(" -->")
  {}

  lemma PlainThird()
    ensures Plain(" ACTIVATION")
  {}

  lemma PlainFourth()
    ensures Plain(" CONTRACT")
  {}

  lemma TailFacts()
    ensures ClosersAbsent(MARKER_TAIL) && '<' !in MARKER_TAIL
  {
    hide ClosersAbsent;
    PlainTail();
  }

  lemma PlainTail()
    ensures Plain(MARKER_TAIL)
  {
    hide Plain;
    PlainFirst();
    PlainShort();
    PlainThird();
    PlainFourth();
    var two := " GENERATED" + " M1";
    var three := two + " ACTIVATION";
    var four := three + " CONTRACT";
    PlainJoin(" GENERATED", " M1");
    PlainJoin(two, " ACTIVATION");
    PlainJoin(three, " CONTRACT");
    PlainJoin(four, " -->");
  }

  predicate IsBlockMarker(m: string) {
    m == BLOCK_START || m == BLOCK_END
  }

  /** Inside a marker, a marker occurs only as itself. */
  lemma InsideMarker(other: string, rest: string, m: string, p: int)
    requires IsBlockMarker(m) && IsBlockMarker(other) && OccursAt(other + rest, m, p) && p < |other|
    ensures p == 0 && m == other
  {
    hide BLOCK_START, BLOCK_END;
    MarkerFacts();
    var text := other + rest;
    assert OccursAt(text, other, 0) by { assert text[0..|other|] == other; }
    assert text[p] == m[0];
    if p > 0 {
      MarkerHead(text, other, 0, p);
    } else {
      assert text[5] == m[5] && text[5] == other[5];
    }
  }

  /** Where a marker can occur in a spliced text. */
  lemma OccurrencesInSpliced(pre: string, doc: Document, post: string, m: string, p: int)
    requires IsBlockMarker(m) && FieldsFree(doc, BLOCK_START) && FieldsFree(doc, BLOCK_END)
    requires OccursAt(pre + Rendered(doc) + post, m, p)
    ensures var n := |pre| + |Rendered(doc)|;
            || OccursAt(pre, m, p)
            || (m == BLOCK_START && p == |pre|)
            || (m == BLOCK_END && p == n - |BLOCK_END|)
            || OccursAt(post, m, p - n)
  {
    hide FieldsFree, BodyLines, Frame, Inert, BLOCK_START, BLOCK_END, OccursAt;
    MarkerFacts();
    var rest := Rendered(doc) + post;
    assert pre + Rendered(doc) + post == pre + rest;
    if p < |pre| {
      assert rest[0] == '<';
      InPrefix(pre, rest, m, p);
    } else {
      OccursShift(pre, rest, m, p);
      OccurrencesInBlock(doc, post, m, p - |pre|);
    }
  }

  lemma OccurrencesInBlock(doc: Document, post: string, m: string, q: int)
    requires IsBlockMarker(m) && FieldsFree(doc, BLOCK_START) && FieldsFree(doc, BLOCK_END)
    requires q >= 0 && OccursAt(Rendered(doc) + post, m, q)
    ensures var n := |Rendered(doc)|;
            || (m == BLOCK_START && q == 0)
            || (m == BLOCK_END && q == n - |BLOCK_END|)
            || OccursAt(post, m, q - n)
  {
    hide FieldsFree, BodyLines, Frame, Inert, BLOCK_START, BLOCK_END, OccursAt, IsBlockMarker;
    MiddleInert(doc, m);
    var middle := "\n" + Frame(BodyLines(doc));
    var tail2 := BLOCK_END + post;
    var tail1 := middle + tail2;
    assert Rendered(doc) + post == BLOCK_START + tail1;
    MarkersAreMarkers();
    if q < |BLOCK_START| {
      InsideMarker(BLOCK_START, tail1, m, q);
    } else {
      OccursShift(BLOCK_START, tail1, m, q);
      var k := q - |BLOCK_START|;
      InertMeans(middle, tail2, m, k);
      OccursShift(middle, tail2, m, k);
      if k - |middle| < |BLOCK_END| {
        InsideMarker(BLOCK_END, post, m, k - |middle|);
      } else {
        OccursShift(BLOCK_END, post, m, k - |middle|);
      }
    }
  }

  lemma MarkersAreMarkers()
    ensures IsBlockMarker(BLOCK_START) && IsBlockMarker(BLOCK_END)
  {
    hide BLOCK_START, BLOCK_END;
  }

  lemma InertMeans(s: string, rest: string, m: string, p: int)
    requires Inert(s, m) && OccursAt(s + rest, m, p)
    ensures p >= |s|
  {}

  lemma MiddleInert(doc: Document, m: string)
    requires IsBlockMarker(m) && FieldsFree(doc, BLOCK_START) && FieldsFree(doc, BLOCK_END)
    ensures Inert("\n" + Frame(BodyLines(doc)), m)
  {
    hide FieldsFree, BodyLines, Frame, Inert, BLOCK_START, BLOCK_END, ClosersAbsent, IsMarker, LinesInert;
    MarkerFacts();
    BodyInert(doc, m);
    FrameInert(BodyLines(doc), m);
    InertGlue("\n", m);
    InertJoin("\n", Frame(BodyLines(doc)), m);
  }

  /** An occurrence cannot run from the text before a `<` into it. */
  lemma InPrefix(pre: string, rest: string, m: string, p: int)
    requires IsMarker(m) && OccursAt(pre + rest, m, p) && p < |pre| && rest != [] && rest[0] == '<'
    ensures OccursAt(pre, m, p)
  {
    var text := pre + rest;
    assert text[|pre|] == '<';
    if |pre| < p + |m| {
      MarkerHead(text, m, p, |pre|);
    }
    assert text[p..p + |m|] == pre[p..p + |m|];
  }

  // ----- The theorem -----

  /** The begin marker lies wholly before the end marker, or wholly after it. */
  lemma MarkersApart(text: string, s: int, e: int)
    requires OccursAt(text, BLOCK_START, s) && OccursAt(text, BLOCK_END, e)
    ensures s + |BLOCK_START| <= e || e + |BLOCK_END| <= s
  {
    hide BLOCK_START, BLOCK_END;
    MarkerFacts();
    assert text[s] == '<' && text[e] == '<';
    assert text[s..s + |BLOCK_START|][5] == text[s + 5];
    assert text[e..e + |BLOCK_END|][5] == text[e + 5];
    assert s != e;
    if s < e < s + |BLOCK_START| {
      MarkerHead(text, BLOCK_START, s, e);
    } else if e < s < e + |BLOCK_END| {
      MarkerHead(text, BLOCK_END, e, s);
    }
  }

  lemma OccursInPart(text: string, from: nat, to: nat, m: string, p: int)
    requires from <= to <= |text| && OccursAt(text[from..to], m, p)
    ensures OccursAt(text, m, p + from)
  {
    var inner, outer := text[from..to][p..p + |m|], text[p + from..p + from + |m|];
    assert forall k :: 0 <= k < |m| ==> inner[k] == outer[k];
    assert inner == outer;
  }

  ghost predicate Spliceable(text: string, doc: Document, s: nat, e: nat) {
    && UniqueAt(text, BLOCK_START, s) && UniqueAt(text, BLOCK_END, e)
    && FieldsFree(doc, BLOCK_START) && FieldsFree(doc, BLOCK_END)
  }

  /** After the splice each marker occurs exactly once, at the ends of the new block. */
  lemma SplicedUnique(text: string, doc: Document, s: nat, e: nat)
    requires Spliceable(text, doc, s, e) && s < e
    ensures e + |BLOCK_END| <= |text|
    ensures var n := |Rendered(doc)|;
            var spliced := text[..s] + Rendered(doc) + text[e + |BLOCK_END|..];
            UniqueAt(spliced, BLOCK_START, s) && UniqueAt(spliced, BLOCK_END, s + n - |BLOCK_END|)
  {
    hide BLOCK_START, BLOCK_END, Rendered, FieldsFree;
    MarkersApart(text, s, e);
    var pre, block, post := text[..s], Rendered(doc), text[e + |BLOCK_END|..];
    assert pre == text[0..s] && post == text[e + |BLOCK_END|..|text|];
    var spliced := pre + block + post;
    RenderedEnds(doc);
    assert spliced[s..s + |BLOCK_START|] == block[..|BLOCK_START|];
    assert spliced[s + |block| - |BLOCK_END|..s + |block|] == block[|block| - |BLOCK_END|..];
    forall m, p | IsBlockMarker(m) && OccursAt(spliced, m, p)
      ensures p == if m == BLOCK_START then s else s + |block| - |BLOCK_END|
    {
      OccurrencesInSpliced(pre, doc, post, m, p);
      if OccursAt(pre, m, p) {
        OccursInPart(text, 0, s, m, p);
      } else if OccursAt(post, m, p - s - |block|) {
        OccursInPart(text, e + |BLOCK_END|, |text|, m, p - s - |block|);
      }
    }
    assert IsBlockMarker(BLOCK_START) && IsBlockMarker(BLOCK_END);
    DistinctMarkers();
  }

  lemma DistinctMarkers()
    ensures BLOCK_START != BLOCK_END
  {
    hide BLOCK_START, BLOCK_END;
    MarkerFacts();
  }

  lemma RenderedEnds(doc: Document)
    ensures var block := Rendered(doc);
            && |block| >= |BLOCK_START| + |BLOCK_END|
            && block[..|BLOCK_START|] == BLOCK_START && block[|block| - |BLOCK_END|..] == BLOCK_END
  {
    hide BodyLines, Frame, BLOCK_START, BLOCK_END;
  }

  /** For a text holding each marker once: the spliced text passes the checker exactly when the
      begin marker came first; then everything around the block is as before, and splicing
      again changes nothing. */
  lemma SpliceTheorem(text: string, doc: Document, s: nat, e: nat)
    requires Spliceable(text, doc, s, e)
    ensures Count(text, BLOCK_START) == 1 && Count(text, BLOCK_END) == 1
    ensures var r := Spliced(text, doc);
            && r.Ok? && (Accepts(r.value, doc) <==> s < e)
            && (s < e ==> r.value[..s] == text[..s] && Spliced(r.value, doc) == r
                          && r.value[s + |Rendered(doc)|..] == text[e + |BLOCK_END|..])
  {
    hide BLOCK_START, BLOCK_END, Rendered, FieldsFree, Count, Find;
    MarkerFacts();
    CountOneIff(text, BLOCK_START, s);
    CountOneIff(text, BLOCK_END, e);
    var block := Rendered(doc);
    var spliced := text[..s] + block + text[e + |BLOCK_END|..];
    assert Spliced(text, doc) == Ok(spliced);
    if s < e {
      SplicedUnique(text, doc, s, e);
      CountOneIff(spliced, BLOCK_START, s);
      CountOneIff(spliced, BLOCK_END, s + |block| - |BLOCK_END|);
      assert spliced[s..s + |block|] == block;
      assert spliced[..s] == text[..s] && spliced[s + |block|..] == text[e + |BLOCK_END|..];
    } else {
      SplicedTwice(text, doc, s, e);
    }
  }

  /** With the end marker first, the old begin marker survives behind the new block. */
  lemma SplicedTwice(text: string, doc: Document, s: nat, e: nat)
    requires Spliceable(text, doc, s, e) && e <= s
    ensures !Accepts(text[..s] + Rendered(doc) + text[e + |BLOCK_END|..], doc)
  {
    hide BLOCK_START, BLOCK_END, Rendered, FieldsFree, Count, Find;
    MarkerFacts();
    MarkersApart(text, s, e);
    RenderedEnds(doc);
    var block, tail := Rendered(doc), text[e + |BLOCK_END|..];
    var spliced := text[..s] + block + tail;
    var again := s + |block| + (s - e - |BLOCK_END|);
    assert spliced[s..s + |BLOCK_START|] == block[..|BLOCK_START|];
    assert spliced[again..again + |BLOCK_START|] == text[s..s + |BLOCK_START|];
    assert OccursAt(spliced, BLOCK_START, s) && OccursAt(spliced, BLOCK_START, again);
    if Accepts(spliced, doc) {
      CountOneIff(spliced, BLOCK_START, Find(spliced, BLOCK_START).value);
    }
  }

  // ----- What the lines say -----

  /** The lines of tasks, exclusions, requirements and budgets, character for character. */
  lemma LinesSay(id: string, state: string, item: string, key: string, value: string, lane: string)
    ensures TaskLine(Task(id, state)) == "- `" + id + "`: `" + state + "`"
    ensures ItemLine(item) == "- `" + item + "`"
    ensures Pair((key, value)) == key + "=" + value && Quoted(item) == "`" + item + "`"
    ensures ExclusionLine((key, [])) == "- " + key + ": "
            && ExclusionLine((key, [item])) == "- " + key + ": `" + item + "`"
    ensures BudgetLine(lane, []) == "- `" + lane + "`: "
    ensures BudgetLine(lane, [(key, value)]) == "- `" + lane + "`: " + key + "=" + value
  {
    assert Map(Quoted, [item])[0] == Quoted(item) && Map(Pair, [(key, value)])[0] == Pair((key, value));
    assert Map(Quoted, []) == [] && Map(Pair, []) == [];
  }

  /** Lists are joined by a comma and a space. */
  lemma ListsSay(key: string, first: string, second: string, rest: seq<string>)
    ensures ExclusionLine((key, [first, second] + rest)) ==
            "- " + key + ": `" + first + "`" + (", " + Joined(Map(Quoted, [second] + rest), ", "))
  {
    hide Quoted;
    var items := [first, second] + rest;
    assert Map(Quoted, items)[0] == Quoted(first);
    assert Map(Quoted, items)[1..] == Map(Quoted, [second] + rest);
    QuotedSays(first);
  }

  lemma QuotedSays(item: string)
    ensures Quoted(item) == "`" + item + "`"
  {}

  /** The sections of the block, in order, each behind its heading. */
  lemma SectionsSay(doc: Document)
    ensures BodyLines(doc) ==
            PREAMBLE
            + ["- Status: `" + doc.status + "`", "- Signature: `" + doc.signature + "`"]
            + CLAIMS
            + ["", "### Authorized tasks"]
            + seq(|doc.authorized|, i requires 0 <= i < |doc.authorized| => TaskLine(doc.authorized[i]))
            + ["", "### Unauthorized tasks"]
            + seq(|doc.unauthorized|, i requires 0 <= i < |doc.unauthorized| => TaskLine(doc.unauthorized[i]))
            + ["", "### Exclusions A-D"]
            + seq(|doc.exclusions|, i requires 0 <= i < |doc.exclusions| => ExclusionLine(doc.exclusions[i]))
            + ["", "### Non-negotiables"]
            + seq(|doc.nonNegotiables|, i requires 0 <= i < |doc.nonNegotiables| => ItemLine(doc.nonNegotiables[i]))
            + ["", "### Deterministic harness budgets"]
            + [BudgetLine("ci_smoke", doc.ciSmoke), BudgetLine("scheduled", doc.scheduled)]
  {
    hide TaskLine, ExclusionLine, ItemLine, BudgetLine, PREAMBLE, CLAIMS;
    assert Map(TaskLine, doc.authorized)
           == seq(|doc.authorized|, i requires 0 <= i < |doc.authorized| => TaskLine(doc.authorized[i]));
    assert Map(TaskLine, doc.unauthorized)
           == seq(|doc.unauthorized|, i requires 0 <= i < |doc.unauthorized| => TaskLine(doc.unauthorized[i]));
    assert Map(ExclusionLine, doc.exclusions)
           == seq(|doc.exclusions|, i requires 0 <= i < |doc.exclusions| => ExclusionLine(doc.exclusions[i]));
    assert Map(ItemLine, doc.nonNegotiables)
           == seq(|doc.nonNegotiables|, i requires 0 <= i < |doc.nonNegotiables| => ItemLine(doc.nonNegotiables[i]));
    assert doc.status + ['`'] == doc.status + "`" && doc.signature + ['`'] == doc.signature + "`";
    assert "- Status: `" + (doc.status + "`") == "- Status: `" + doc.status + "`";
    assert "- Signature: `" + (doc.signature + "`") == "- Signature: `" + doc.signature + "`";
  }

  /** What a missing marker raises; with both, the text between them, markers included, is replaced. */
  lemma SplicedMeans(text: string, doc: Document)
    ensures var begun := exists p :: OccursAt(text, BLOCK_START, p);
            var ended := exists p :: OccursAt(text, BLOCK_END, p);
            && (Spliced(text, doc) == Err("begin marker missing") <==> !begun)
            && (Spliced(text, doc) == Err("end marker missing") <==> begun && !ended)
            && (Spliced(text, doc).Ok? <==> begun && ended)
    ensures forall s, e :: OccursAt(text, BLOCK_START, s) && (forall p :: OccursAt(text, BLOCK_START, p) ==> s <= p)
                           && OccursAt(text, BLOCK_END, e) && (forall p :: OccursAt(text, BLOCK_END, p) ==> e <= p) ==>
              Spliced(text, doc) == Ok(text[..s] + Rendered(doc) + text[e + |BLOCK_END|..])
  {
    hide BLOCK_START, BLOCK_END, Rendered, OccursAt;
    assert "begin marker missing"[0] == 'b' && "end marker missing"[0] == 'e';
    OccursInside(text, BLOCK_START);
    OccursInside(text, BLOCK_END);
  }

  lemma OccursInside(text: string, m: string)
    ensures forall p :: OccursAt(text, m, p) ==> 0 <= p <= |text| - |m|
  {}
}
