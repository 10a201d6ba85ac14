/**
 The four tracefile writers of the resource harness and the closed forms the harness
 claims for them. The repository measures thirteen sizes; everything here is for all sizes.
 */
module Profiles {
  import opened Wrappers
  import opened Text
  import opened Decimal
  import opened Tracefile

  datatype Axis = FieldBytes | DataRecords | Sections | FamilyCardinality | UnknownAxis(name: string)

  datatype Profile = Profile(axis: Axis, target: int)

  // ----- What the writers write, as record lists -----

  function Tag(tag: Bytes, payload: Bytes): Bytes {
    tag + ":" + payload
  }

  const END_RECORD: Bytes := "end_of_record"
  const FIELD_PATH: Bytes := "resource/field.c"
  const RECORDS_PATH: Bytes := "resource/records.c"
  const CARDINALITY_PATH: Bytes := "resource/cardinality.c"

  function DataRecord(i: nat): Bytes {
    Tag("DA", Print(i) + [','] + "1")
  }

  function SectionPath(i: nat): Bytes {
    "resource/section-" + PrintPadded(i) + ".c"
  }

  function FunctionRecord(i: nat): Bytes
    requires i > 0
  {
    Tag("FNL", Print(i - 1) + [','] + (Print(i) + [','] + Print(i)))
  }

  function AliasRecord(i: nat): Bytes
    requires i > 0
  {
    Tag("FNA", Print(i - 1) + [','] + ("1" + [','] + ("function_" + Print(i))))
  }

  function BranchRecord(i: nat): Bytes {
    Tag("BRDA", Print(i) + [','] + ("0" + [','] + (("branch_" + Print(i)) + [','] + "1")))
  }

  function McdcRecord(i: nat, sense: Bytes, taken: Bytes): Bytes {
    Tag("MCDC", Print(i) + [','] + ("1" + [','] + (sense + [','] + (taken + [','] +
                ("0" + [','] + ("condition_" + Print(i)))))))
  }

  function DataBlock(n: nat): seq<Bytes> {
    if n == 0 then [] else DataBlock(n - 1) + [DataRecord(n)]
  }

  function SectionBlock(n: nat): seq<Bytes> {
    if n == 0 then []
    else SectionBlock(n - 1) + [Tag("SF", SectionPath(n)), DataRecord(1), END_RECORD]
  }

  function FunctionBlock(n: nat): seq<Bytes> {
    if n == 0 then [] else FunctionBlock(n - 1) + [FunctionRecord(n), AliasRecord(n)]
  }

  function BranchBlock(n: nat): seq<Bytes> {
    if n == 0 then [] else BranchBlock(n - 1) + [BranchRecord(n)]
  }

  function McdcBlock(n: nat): seq<Bytes> {
    if n == 0 then [] else McdcBlock(n - 1) + [McdcRecord(n, "t", "1"), McdcRecord(n, "f", "0")]
  }

  /** `range(1, target + 1)` is empty and `b"x" * target` is empty for a negative target. */
  function Size(target: int): nat {
    if target < 0 then 0 else target
  }

  function Filler(n: nat): (s: Bytes)
    ensures |s| == n
  {
    seq(n, _ => 'x')
  }

  function ProfileRecords(profile: Profile): seq<Bytes> {
    var n := Size(profile.target);
    match profile.axis
    case FieldBytes => [Tag("TN", Filler(n)), Tag("SF", FIELD_PATH), DataRecord(1), END_RECORD]
    case DataRecords => [Tag("SF", RECORDS_PATH)] + DataBlock(n) + [END_RECORD]
    case Sections => SectionBlock(n)
    case FamilyCardinality =>
      [Tag("SF", CARDINALITY_PATH)] + FunctionBlock(n) + BranchBlock(n) + McdcBlock(n) + DataBlock(n)
      + [END_RECORD]
    case UnknownAxis(_) => []
  }

  // ----- Framing round trip -----

  predicate CleanRecord(record: Bytes) {
    record != [] && LineFree(record)
  }

  ghost predicate Clean(records: seq<Bytes>) {
    forall i :: 0 <= i < |records| ==> CleanRecord(records[i])
  }

  /** Appending one framed record to complete lines appends that one line. */
  lemma {:induction false} LinesAppend(content: Bytes, record: Bytes)
    requires content == [] || content[|content| - 1] == '\n'
    requires '\n' !in record
    ensures Lines(content + (record + "\n")) == Lines(content) + [record + "\n"]
    decreases |content|
  {
    hide FirstLine;
    var last := record + "\n";
    var whole := content + last;
    if content == [] {
      LinesOfOne(record);
      assert whole == last;
    } else {
      var line := FirstLine(content);
      FirstLineOfPrefix(content, last);
      assert whole[|line|..] == content[|line|..] + last;
      LinesAppend(content[|line|..], record);
    }
  }

  lemma LinesOfOne(record: Bytes)
    requires '\n' !in record
    ensures Lines(record + "\n") == [record + "\n"]
  {
    var line := record + "\n";
    assert line == record + ['\n'] + [];
    IndexOfUnique(record, '\n', []);
    assert FirstLine(line) == line;
    hide FirstLine;
    assert line[|line|..] == [];
  }

  lemma FirstLineOfPrefix(content: Bytes, more: Bytes)
    requires content != [] && content[|content| - 1] == '\n'
    ensures FirstLine(content + more) == FirstLine(content)
    ensures var line := FirstLine(content);
            |line| < |content| ==> content[|line|..][|content| - |line| - 1] == '\n'
  {
    hide FirstLine, IndexOf;
    var line := FirstLine(content);
    assert line == content[..|line|];
    assert EndsWith(line, '\n') by {
      if |line| == |content| {
        assert line == content;
      }
    }
    assert (content + more)[..|line|] == line;
    FirstLineIs(content + more, line);
  }

  lemma {:induction false} FrameEndsLine(records: seq<Bytes>)
    ensures records != [] ==> Frame(records) != [] && Frame(records)[|Frame(records)| - 1] == '\n'
  {}

  lemma StripFramed(record: Bytes)
    requires CleanRecord(record)
    ensures RecordsOf([record + "\n"]) == [record]
  {
    assert (record + "\n")[..|record|] == record;
    assert Strip(record + "\n") == record;
    hide Strip;
    assert [record + "\n"][1..] == [];
  }

  /** Reading back framed records yields exactly those records. */
  lemma {:induction false} FramingRoundTrip(records: seq<Bytes>)
    requires Clean(records)
    ensures Records(Frame(records)) == records
  {
    if records == [] {
    } else {
      var init, record := records[..|records| - 1], records[|records| - 1];
      FramingRoundTrip(init);
      FrameEndsLine(init);
      hide Frame, Lines, RecordsOf;
      assert records == init + [record];
      FrameSnoc(init, record);
      LinesAppend(Frame(init), record);
      RecordsOfAppend(Lines(Frame(init)), [record + "\n"]);
      StripFramed(record);
    }
  }

  // ----- What the analyser makes of each written record -----

  lemma TagFacts(payload: Bytes)
    ensures KindOf(Tag("SF", payload)) == Source && KindOf(Tag("DA", payload)) == Line
    ensures KindOf(Tag("FNL", payload)) == Function && KindOf(Tag("BRDA", payload)) == Branch
    ensures KindOf(Tag("MCDC", payload)) == Mcdc
    ensures KindOf(Tag("FNA", payload)) == KindOf(Tag("TN", payload)) == Other
  {
    hide KindOf;
    FirstThreeTags(payload);
    LastTags(payload);
  }

  lemma FirstThreeTags(payload: Bytes)
    ensures KindOf(Tag("SF", payload)) == Source && KindOf(Tag("DA", payload)) == Line
    ensures KindOf(Tag("FNL", payload)) == Function
  {
    assert Tag("SF", payload)[..3] == "SF:";
    assert Tag("DA", payload)[..3] == "DA:";
    assert Tag("FNL", payload)[..4] == "FNL:";
    assert Tag("DA", payload)[0] == 'D' && Tag("FNL", payload)[0] == 'F';
  }

  lemma LastTags(payload: Bytes)
    ensures KindOf(Tag("BRDA", payload)) == Branch && KindOf(Tag("MCDC", payload)) == Mcdc
    ensures KindOf(Tag("FNA", payload)) == KindOf(Tag("TN", payload)) == Other
  {
    assert Tag("BRDA", payload)[..5] == "BRDA:";
    assert Tag("MCDC", payload)[..5] == "MCDC:";
    assert Tag("FNA", payload)[2] == 'A' && "FNL:"[2] == 'L';
    assert Tag("FNA", payload)[0] == 'F' && Tag("TN", payload)[0] == 'T';
    assert Tag("BRDA", payload)[0] == 'B' && Tag("MCDC", payload)[0] == 'M';
  }

  lemma TagPayload(tag: Bytes, payload: Bytes)
    requires tag in {"SF", "DA", "FNL", "FNA", "BRDA", "MCDC", "TN"}
    ensures Payload(Tag(tag, payload)) == payload
    ensures LineFree(payload) ==> LineFree(Tag(tag, payload))
  {
    PayloadOf(tag, payload);
    hide Payload;
  }

  lemma DigitsAreClean(s: Bytes)
    requires AllDigits(s)
    ensures LineFree(s) && ',' !in s
  {}

  lemma DataRecordFacts(i: nat, source: Bytes)
    ensures KindOf(DataRecord(i)) == Line
    ensures KeyOf(source, DataRecord(i)) == LineKey(source)(i)
    ensures LineFree(DataRecord(i)) && FieldsComplete(DataRecord(i))
  {
    hide Print, KindOf, Payload, Split, Tag;
    DigitsAreClean(Print(i));
    var payload := Print(i) + [','] + "1";
    TagFacts(payload);
    TagPayload("DA", payload);
    SplitStep(Print(i), ',', "1", 1);
  }

  lemma SourceRecordFacts(path: Bytes)
    ensures KindOf(Tag("SF", path)) == Source && Payload(Tag("SF", path)) == path
    ensures LineFree(path) ==> LineFree(Tag("SF", path))
    ensures KindOf(END_RECORD) == EndOfRecord && LineFree(END_RECORD)
  {
    hide Tag, Payload;
    TagFacts(path);
    TagPayload("SF", path);
  }

  lemma FunctionRecordFacts(i: nat, source: Bytes)
    requires i > 0
    ensures KindOf(FunctionRecord(i)) == Function && KindOf(AliasRecord(i)) == Other
    ensures KeyOf(source, FunctionRecord(i)) == FunctionKey(source)(i)
    ensures LineFree(FunctionRecord(i)) && LineFree(AliasRecord(i))
    ensures FieldsComplete(FunctionRecord(i)) && FieldsComplete(AliasRecord(i))
  {
    hide Print, KindOf, Payload, Split, Tag;
    DigitsAreClean(Print(i));
    DigitsAreClean(Print(i - 1));
    var tail := Print(i) + [','] + Print(i);
    TagFacts(Print(i - 1) + [','] + tail);
    TagPayload("FNL", Print(i - 1) + [','] + tail);
    SplitStep(Print(i - 1), ',', tail, 1);
    var alias := Print(i - 1) + [','] + ("1" + [','] + ("function_" + Print(i)));
    TagFacts(alias);
    TagPayload("FNA", alias);
  }

  lemma BranchRecordFacts(i: nat, source: Bytes)
    ensures KindOf(BranchRecord(i)) == Branch
    ensures KeyOf(source, BranchRecord(i)) == BranchKey(source)(i)
    ensures LineFree(BranchRecord(i)) && FieldsComplete(BranchRecord(i))
  {
    hide Print, KindOf, Payload, Split, Tag;
    DigitsAreClean(Print(i));
    var name := "branch_" + Print(i);
    var tail2 := name + [','] + "1";
    var tail1 := "0" + [','] + tail2;
    TagFacts(Print(i) + [','] + tail1);
    TagPayload("BRDA", Print(i) + [','] + tail1);
    SplitStep(Print(i), ',', tail1, 3);
    SplitStep("0", ',', tail2, 2);
    SplitStep(name, ',', "1", 1);
    SplitZero("1");
  }

  lemma SplitZero(s: Bytes)
    ensures Split(s, ',', 0) == [s]
  {}

  lemma McdcRecordFacts(i: nat, sense: Bytes, taken: Bytes, source: Bytes)
    requires LineFree(sense) && LineFree(taken) && ',' !in sense && ',' !in taken
    ensures KindOf(McdcRecord(i, sense, taken)) == Mcdc && FieldsComplete(McdcRecord(i, sense, taken))
    ensures KeyOf(source, McdcRecord(i, sense, taken)) == ConditionKey(source)(i)
    ensures LineFree(McdcRecord(i, sense, taken))
  {
    hide Print, KindOf, Payload, Split, Tag;
    DigitsAreClean(Print(i));
    var name := "condition_" + Print(i);
    var tail4 := "0" + [','] + name;
    var tail3 := taken + [','] + tail4;
    var tail2 := sense + [','] + tail3;
    var tail1 := "1" + [','] + tail2;
    TagFacts(Print(i) + [','] + tail1);
    TagPayload("MCDC", Print(i) + [','] + tail1);
    SplitStep(Print(i), ',', tail1, 5);
    SplitStep("1", ',', tail2, 4);
    SplitStep(sense, ',', tail3, 3);
    SplitStep(taken, ',', tail4, 2);
    SplitStep("0", ',', name, 1);
    SplitZero(name);
  }

  // ----- What the analyser makes of each written block -----

  /** The keys numbered 1 to `n`. */
  ghost function Keys(key: nat -> seq<Bytes>, n: nat): set<seq<Bytes>> {
    set i: nat | 1 <= i <= n :: key(i)
  }

  lemma KeysSnoc(key: nat -> seq<Bytes>, n: nat)
    requires n > 0
    ensures Keys(key, n) == Keys(key, n - 1) + {key(n)}
  {
    assert forall k :: k in Keys(key, n) ==> k in Keys(key, n - 1) || k == key(n);
  }

  /** Distinct numbers give distinct keys, so there are `n` of them. */
  lemma {:induction false} KeysSize(key: nat -> seq<Bytes>, n: nat)
    requires forall i: nat, j: nat :: 1 <= i <= n && 1 <= j <= n && key(i) == key(j) ==> i == j
    ensures |Keys(key, n)| == n
  {
    if n == 0 {
      assert Keys(key, n) == {};
    } else {
      KeysSnoc(key, n);
      KeysSize(key, n - 1);
      assert key(n) !in Keys(key, n - 1);
    }
  }

  function LineKey(source: Bytes): nat -> seq<Bytes> {
    (i: nat) => [source, Print(i)]
  }

  function SectionKey(): nat -> seq<Bytes> {
    (i: nat) => [SectionPath(i), Print(1)]
  }

  function FunctionKey(source: Bytes): nat -> seq<Bytes> {
    (i: nat) => [source, Print(if i == 0 then 0 else i - 1)]
  }

  function BranchKey(source: Bytes): nat -> seq<Bytes> {
    (i: nat) => [source, Print(i), "0", "branch_" + Print(i)]
  }

  function ConditionKey(source: Bytes): nat -> seq<Bytes> {
    (i: nat) => [source, Print(i), "1", "0", "condition_" + Print(i)]
  }

  lemma FamilyKeysSize(source: Bytes, n: nat)
    ensures |Keys(LineKey(source), n)| == n && |Keys(FunctionKey(source), n)| == n
    ensures |Keys(BranchKey(source), n)| == n && |Keys(ConditionKey(source), n)| == n
  {
    hide Print, Keys;
    forall i: nat, j: nat ensures Print(i) == Print(j) ==> i == j {
      PrintInjective(i, j);
    }
    assert forall i: nat :: LineKey(source)(i)[1] == Print(i);
    assert forall i: nat :: BranchKey(source)(i)[1] == Print(i);
    assert forall i: nat :: ConditionKey(source)(i)[1] == Print(i);
    assert forall i: nat :: i >= 1 ==> FunctionKey(source)(i)[1] == Print(i - 1);
    KeysSize(LineKey(source), n);
    KeysSize(FunctionKey(source), n);
    KeysSize(BranchKey(source), n);
    KeysSize(ConditionKey(source), n);
  }

  lemma SectionKeysSize(n: nat)
    ensures |Keys(SectionKey(), n)| == n
  {
    hide Print, PrintPadded, Keys;
    forall i: nat, j: nat ensures SectionKey()(i) == SectionKey()(j) ==> i == j {
      assert SectionKey()(i)[0] == SectionPath(i) && SectionKey()(j)[0] == SectionPath(j);
      assert SectionPath(i)[17..|SectionPath(i)| - 2] == PrintPadded(i);
      assert SectionPath(j)[17..|SectionPath(j)| - 2] == PrintPadded(j);
      PrintInjective(i, j);
    }
    KeysSize(SectionKey(), n);
  }

  datatype Growth = Growth(records: nat, data: nat, sections: nat,
                           lines: set<seq<Bytes>>, functions: set<seq<Bytes>>,
                           branches: set<seq<Bytes>>, mcdc: set<seq<Bytes>>)

  /** Scanning `block` after `pre` succeeds and grows the scan by `g`, ending in section `source`. */
  ghost predicate Grows(pre: seq<Bytes>, block: seq<Bytes>, g: Growth, source: Option<Bytes>) {
    ScanRecords(pre).Ok? && ScanRecords(pre + block).Ok? &&
    var a, b := ScanRecords(pre).value, ScanRecords(pre + block).value;
    && b.currentSource == source
    && b.recordCount == a.recordCount + g.records
    && b.dataRecordCount == a.dataRecordCount + g.data
    && b.sectionCount == a.sectionCount + g.sections
    && b.lineKeys == a.lineKeys + g.lines
    && b.functionKeys == a.functionKeys + g.functions
    && b.branchKeys == a.branchKeys + g.branches
    && b.mcdcKeys == a.mcdcKeys + g.mcdc
  }

  ghost predicate Open(records: seq<Bytes>, source: Bytes) {
    ScanRecords(records).Ok? && ScanRecords(records).value.currentSource == Some(source)
  }

  lemma GrowsNot(pre: seq<Bytes>, source: Bytes)
    requires Open(pre, source)
    ensures Grows(pre, [], Growth(0, 0, 0, {}, {}, {}, {}), Some(source))
  {
    hide ScanRecords;
    assert pre + [] == pre;
  }

  function Grown(g: Growth, kind: Kind, key: seq<Bytes>): Growth {
    var more := g.(records := g.records + 1);
    match kind
    case Line => more.(data := g.data + 1, lines := g.lines + {key})
    case Function => more.(functions := g.functions + {key})
    case Branch => more.(branches := g.branches + {key})
    case Mcdc => more.(mcdc := g.mcdc + {key})
    case _ => more
  }

  /** One more record inside the section. */
  lemma GrowsBy(pre: seq<Bytes>, block: seq<Bytes>, g: Growth, source: Bytes, record: Bytes)
    requires Grows(pre, block, g, Some(source))
    requires KindOf(record) != Source && KindOf(record) != EndOfRecord && FieldsComplete(record)
    ensures Grows(pre, block + [record], Grown(g, KindOf(record), KeyOf(source, record)), Some(source))
  {
    hide KindOf, KeyOf, Payload, FieldsComplete, ScanRecords;
    assert pre + (block + [record]) == (pre + block) + [record];
    ScanSnoc(pre + block, record);
  }

  ghost function LineGrowth(source: Bytes, n: nat): Growth {
    Growth(n, n, 0, Keys(LineKey(source), n), {}, {}, {})
  }

  ghost function FunctionGrowth(source: Bytes, n: nat): Growth {
    Growth(2 * n, 0, 0, {}, Keys(FunctionKey(source), n), {}, {})
  }

  ghost function BranchGrowth(source: Bytes, n: nat): Growth {
    Growth(n, 0, 0, {}, {}, Keys(BranchKey(source), n), {})
  }

  ghost function McdcGrowth(source: Bytes, n: nat): Growth {
    Growth(2 * n, 0, 0, {}, {}, {}, Keys(ConditionKey(source), n))
  }

  /** What one more number adds to each block and to each growth. */
  lemma BlockSteps(n: nat)
    requires n > 0
    ensures DataBlock(n) == DataBlock(n - 1) + [DataRecord(n)]
    ensures FunctionBlock(n) == FunctionBlock(n - 1) + [FunctionRecord(n)] + [AliasRecord(n)]
    ensures BranchBlock(n) == BranchBlock(n - 1) + [BranchRecord(n)]
    ensures McdcBlock(n) == McdcBlock(n - 1) + [McdcRecord(n, "t", "1")] + [McdcRecord(n, "f", "0")]
  {
    hide DataRecord, FunctionRecord, AliasRecord, BranchRecord, McdcRecord;
  }

  lemma GrowthSteps(source: Bytes, n: nat, other: seq<Bytes>)
    requires n > 0
    ensures Grown(LineGrowth(source, n - 1), Line, LineKey(source)(n)) == LineGrowth(source, n)
    ensures Grown(Grown(FunctionGrowth(source, n - 1), Function, FunctionKey(source)(n)), Other, other)
            == FunctionGrowth(source, n)
    ensures Grown(BranchGrowth(source, n - 1), Branch, BranchKey(source)(n)) == BranchGrowth(source, n)
    ensures Grown(Grown(McdcGrowth(source, n - 1), Mcdc, ConditionKey(source)(n)), Mcdc, ConditionKey(source)(n))
            == McdcGrowth(source, n)
  {
    hide Keys, LineKey, FunctionKey, BranchKey, ConditionKey;
    KeysSnoc(LineKey(source), n);
    KeysSnoc(FunctionKey(source), n);
    KeysSnoc(BranchKey(source), n);
    KeysSnoc(ConditionKey(source), n);
  }

  lemma BlocksEmpty(pre: seq<Bytes>, source: Bytes)
    requires Open(pre, source)
    ensures Grows(pre, DataBlock(0), LineGrowth(source, 0), Some(source))
    ensures Grows(pre, FunctionBlock(0), FunctionGrowth(source, 0), Some(source))
    ensures Grows(pre, BranchBlock(0), BranchGrowth(source, 0), Some(source))
    ensures Grows(pre, McdcBlock(0), McdcGrowth(source, 0), Some(source))
  {
    hide Grows, Open;
    GrowsNot(pre, source);
    assert forall key :: Keys(key, 0) == {};
  }

  lemma {:induction false} DataBlockGrows(pre: seq<Bytes>, source: Bytes, n: nat)
    requires Open(pre, source)
    ensures Grows(pre, DataBlock(n), LineGrowth(source, n), Some(source))
  {
    hide *;
    if n == 0 {
      BlocksEmpty(pre, source);
    } else {
      DataBlockGrows(pre, source, n - 1);
      BlockSteps(n);
      GrowthSteps(source, n, []);
      DataRecordFacts(n, source);
      GrowsBy(pre, DataBlock(n - 1), LineGrowth(source, n - 1), source, DataRecord(n));
    }
  }

  lemma {:induction false} FunctionBlockGrows(pre: seq<Bytes>, source: Bytes, n: nat)
    requires Open(pre, source)
    ensures Grows(pre, FunctionBlock(n), FunctionGrowth(source, n), Some(source))
  {
    hide *;
    if n == 0 {
      BlocksEmpty(pre, source);
    } else {
      FunctionBlockGrows(pre, source, n - 1);
      BlockSteps(n);
      GrowthSteps(source, n, KeyOf(source, AliasRecord(n)));
      FunctionRecordFacts(n, source);
      var block, g := FunctionBlock(n - 1), FunctionGrowth(source, n - 1);
      GrowsBy(pre, block, g, source, FunctionRecord(n));
      GrowsBy(pre, block + [FunctionRecord(n)], Grown(g, Function, FunctionKey(source)(n)), source, AliasRecord(n));
    }
  }

  lemma {:induction false} BranchBlockGrows(pre: seq<Bytes>, source: Bytes, n: nat)
    requires Open(pre, source)
    ensures Grows(pre, BranchBlock(n), BranchGrowth(source, n), Some(source))
  {
    hide *;
    if n == 0 {
      BlocksEmpty(pre, source);
    } else {
      BranchBlockGrows(pre, source, n - 1);
      BlockSteps(n);
      GrowthSteps(source, n, []);
      BranchRecordFacts(n, source);
      GrowsBy(pre, BranchBlock(n - 1), BranchGrowth(source, n - 1), source, BranchRecord(n));
    }
  }

  /** The `t` and the `f` record of a condition collapse into one key. */
  lemma {:induction false} McdcBlockGrows(pre: seq<Bytes>, source: Bytes, n: nat)
    requires Open(pre, source)
    ensures Grows(pre, McdcBlock(n), McdcGrowth(source, n), Some(source))
  {
    hide *;
    if n == 0 {
      BlocksEmpty(pre, source);
    } else {
      McdcBlockGrows(pre, source, n - 1);
      BlockSteps(n);
      GrowthSteps(source, n, []);
      McdcPairFacts(n, source);
      var block, g, key := McdcBlock(n - 1), McdcGrowth(source, n - 1), ConditionKey(source)(n);
      var t, f := McdcRecord(n, "t", "1"), McdcRecord(n, "f", "0");
      GrowsBy(pre, block, g, source, t);
      GrowsBy(pre, block + [t], Grown(g, Mcdc, key), source, f);
    }
  }

  lemma McdcPairFacts(n: nat, source: Bytes)
    ensures forall r :: r in {McdcRecord(n, "t", "1"), McdcRecord(n, "f", "0")} ==>
              KindOf(r) == Mcdc && FieldsComplete(r) && KeyOf(source, r) == ConditionKey(source)(n) && LineFree(r)
  {
    hide KindOf, FieldsComplete, KeyOf, ConditionKey, McdcRecord;
    McdcRecordFacts(n, "t", "1", source);
    McdcRecordFacts(n, "f", "0", source);
  }

  // ----- Whole profiles -----

  ghost function Plus(g: Growth, h: Growth): Growth {
    Growth(g.records + h.records, g.data + h.data, g.sections + h.sections, g.lines + h.lines,
           g.functions + h.functions, g.branches + h.branches, g.mcdc + h.mcdc)
  }

  lemma GrowsThen(block: seq<Bytes>, g: Growth, source: Option<Bytes>,
                  next: seq<Bytes>, h: Growth, source': Option<Bytes>)
    requires Grows([], block, g, source) && Grows(block, next, h, source')
    ensures Grows([], block + next, Plus(g, h), source')
  {
    hide ScanRecords;
    assert [] + block == block && [] + (block + next) == block + next;
  }

  lemma GrowsOpenIs(block: seq<Bytes>, g: Growth, source: Bytes)
    requires Grows([], block, g, Some(source))
    ensures Open(block, source)
  {
    hide ScanRecords;
    assert [] + block == block;
  }

  const NO_GROWTH := Growth(0, 0, 0, {}, {}, {}, {})

  lemma GrowsStart()
    ensures Grows([], [], NO_GROWTH, None)
  {
    var none: seq<Bytes> := [];
    assert none + none == none;
  }

  /** A record that opens or closes a section, or that the analyser only counts. */
  lemma GrowsOutside(block: seq<Bytes>, g: Growth, source: Option<Bytes>, record: Bytes)
    requires Grows([], block, g, source) && !IsCoverage(KindOf(record))
    ensures var opens := KindOf(record) == Source;
            Grows([], block + [record],
                  g.(records := g.records + 1, sections := g.sections + if opens then 1 else 0),
                  if opens then Some(Payload(record)) else if KindOf(record) == EndOfRecord then None else source)
  {
    hide KindOf, KeyOf, Payload, FieldsComplete, ScanRecords;
    assert [] + block == block && [] + (block + [record]) == block + [record];
    ScanSnoc(block, record);
  }

  ghost function SectionGrowth(n: nat): Growth {
    Growth(3 * n, n, n, Keys(SectionKey(), n), {}, {}, {})
  }

  lemma SectionStep(n: nat)
    requires n > 0
    ensures SectionBlock(n) == SectionBlock(n - 1) + [Tag("SF", SectionPath(n))] + [DataRecord(1)] + [END_RECORD]
    ensures var g := SectionGrowth(n - 1);
            SectionGrowth(n) == Growth(g.records + 3, n, n, g.lines + {LineKey(SectionPath(n))(1)}, {}, {}, {})
  {
    hide Tag, SectionPath, DataRecord, Print;
    KeysSnoc(SectionKey(), n);
  }

  lemma SectionsEmpty()
    ensures Grows([], SectionBlock(0), SectionGrowth(0), None)
  {
    hide Grows;
    GrowsStart();
    assert Keys(SectionKey(), 0) == {};
  }

  lemma {:induction false} SectionBlockGrows(n: nat)
    ensures Grows([], SectionBlock(n), SectionGrowth(n), None)
  {
    hide Grows, SectionBlock, SectionGrowth, KindOf, KeyOf, Payload, Tag, SectionPath, DataRecord,
         FieldsComplete, LineKey, Keys;
    if n == 0 {
      SectionsEmpty();
    } else {
      SectionBlockGrows(n - 1);
      SectionStep(n);
      var path := SectionPath(n);
      var start, g := SectionBlock(n - 1), SectionGrowth(n - 1);
      SourceRecordFacts(path);
      DataRecordFacts(1, path);
      SectionGrowthShape(n - 1);
      GrowsOutside(start, g, None, Tag("SF", path));
      var began := g.(records := g.records + 1, sections := g.sections + 1);
      GrowsBy([], start + [Tag("SF", path)], began, path, DataRecord(1));
      GrowsOutside(start + [Tag("SF", path)] + [DataRecord(1)],
                   Grown(began, Line, LineKey(path)(1)), Some(path), END_RECORD);
    }
  }

  lemma SectionGrowthShape(n: nat)
    ensures var g := SectionGrowth(n); g == Growth(g.records, n, n, g.lines, {}, {}, {})
  {}

  ghost function ProfileGrowth(profile: Profile): Growth {
    var n := Size(profile.target);
    match profile.axis
    case FieldBytes => Growth(4, 1, 1, {LineKey(FIELD_PATH)(1)}, {}, {}, {})
    case DataRecords => Growth(n + 2, n, 1, Keys(LineKey(RECORDS_PATH), n), {}, {}, {})
    case Sections => SectionGrowth(n)
    case FamilyCardinality =>
      Growth(6 * n + 2, n, 1, Keys(LineKey(CARDINALITY_PATH), n), Keys(FunctionKey(CARDINALITY_PATH), n),
             Keys(BranchKey(CARDINALITY_PATH), n), Keys(ConditionKey(CARDINALITY_PATH), n))
    case UnknownAxis(_) => NO_GROWTH
  }

  lemma OpeningGrows(path: Bytes)
    ensures Grows([], [Tag("SF", path)], NO_GROWTH.(records := 1, sections := 1), Some(path))
  {
    hide Grows, KindOf, Payload, Tag;
    SourceRecordFacts(path);
    GrowsStart();
    GrowsOutside([], NO_GROWTH, None, Tag("SF", path));
    assert [] + [Tag("SF", path)] == [Tag("SF", path)];
  }

  lemma ClosingGrows(block: seq<Bytes>, g: Growth, source: Bytes)
    requires Grows([], block, g, Some(source))
    ensures Grows([], block + [END_RECORD], g.(records := g.records + 1), None)
  {
    hide Grows, KindOf, Payload, Tag;
    SourceRecordFacts(source);
    GrowsOutside(block, g, Some(source), END_RECORD);
  }

  lemma RecordsProfileGrows(target: int)
    ensures var profile := Profile(DataRecords, target);
            Grows([], ProfileRecords(profile), ProfileGrowth(profile), None)
  {
    hide Grows, Open, DataBlock, Tag, Keys, LineKey;
    var n, head := Size(target), [Tag("SF", RECORDS_PATH)];
    OpeningGrows(RECORDS_PATH);
    var g := NO_GROWTH.(records := 1, sections := 1);
    GrowsOpenIs(head, g, RECORDS_PATH);
    DataBlockGrows(head, RECORDS_PATH, n);
    GrowsThen(head, g, Some(RECORDS_PATH), DataBlock(n), LineGrowth(RECORDS_PATH, n), Some(RECORDS_PATH));
    var total := Plus(g, LineGrowth(RECORDS_PATH, n));
    ClosingGrows(head + DataBlock(n), total, RECORDS_PATH);
    assert total.(records := n + 2) == ProfileGrowth(Profile(DataRecords, target));
  }

  /** One block after another, inside the section of `path`. */
  lemma ThenBlock(start: seq<Bytes>, g: Growth, path: Bytes, block: seq<Bytes>, h: Growth)
    requires Grows([], start, g, Some(path))
    requires Open(start, path) ==> Grows(start, block, h, Some(path))
    ensures Grows([], start + block, Plus(g, h), Some(path))
  {
    hide Grows, Open, Plus;
    GrowsOpenIs(start, g, path);
    GrowsThen(start, g, Some(path), block, h, Some(path));
  }

  ghost function CardinalityTotal(path: Bytes, n: nat): Growth {
    Plus(Plus(Plus(Plus(NO_GROWTH.(records := 1, sections := 1), FunctionGrowth(path, n)),
                   BranchGrowth(path, n)), McdcGrowth(path, n)), LineGrowth(path, n))
  }

  function CardinalityBody(path: Bytes, n: nat): seq<Bytes> {
    [Tag("SF", path)] + FunctionBlock(n) + BranchBlock(n) + McdcBlock(n) + DataBlock(n)
  }

  lemma CardinalityBlocksGrow(path: Bytes, n: nat)
    ensures Grows([], CardinalityBody(path, n), CardinalityTotal(path, n), Some(path))
  {
    hide Grows, Open, Plus, FunctionGrowth, BranchGrowth, McdcGrowth, LineGrowth,
         DataBlock, FunctionBlock, BranchBlock, McdcBlock, Tag;
    var s0, g0 := [Tag("SF", path)], NO_GROWTH.(records := 1, sections := 1);
    OpeningGrows(path);
    var s1, g1 := s0 + FunctionBlock(n), Plus(g0, FunctionGrowth(path, n));
    if Open(s0, path) { FunctionBlockGrows(s0, path, n); }
    ThenBlock(s0, g0, path, FunctionBlock(n), FunctionGrowth(path, n));
    var s2, g2 := s1 + BranchBlock(n), Plus(g1, BranchGrowth(path, n));
    if Open(s1, path) { BranchBlockGrows(s1, path, n); }
    ThenBlock(s1, g1, path, BranchBlock(n), BranchGrowth(path, n));
    var s3, g3 := s2 + McdcBlock(n), Plus(g2, McdcGrowth(path, n));
    if Open(s2, path) { McdcBlockGrows(s2, path, n); }
    ThenBlock(s2, g2, path, McdcBlock(n), McdcGrowth(path, n));
    if Open(s3, path) { DataBlockGrows(s3, path, n); }
    ThenBlock(s3, g3, path, DataBlock(n), LineGrowth(path, n));
  }

  lemma CardinalityTotalIs(target: int)
    ensures var total := CardinalityTotal(CARDINALITY_PATH, Size(target));
            total.(records := total.records + 1) == ProfileGrowth(Profile(FamilyCardinality, target))
  {
    hide Keys, LineKey, FunctionKey, BranchKey, ConditionKey, Plus, CARDINALITY_PATH;
    var n, path := Size(target), CARDINALITY_PATH;
    PlusFamilies(n, Keys(LineKey(path), n), Keys(FunctionKey(path), n), Keys(BranchKey(path), n),
                 Keys(ConditionKey(path), n));
  }

  lemma PlusFamilies(n: nat, lines: set<seq<Bytes>>, functions: set<seq<Bytes>>,
                     branches: set<seq<Bytes>>, mcdc: set<seq<Bytes>>)
    ensures Plus(Plus(Plus(Plus(Growth(1, 0, 1, {}, {}, {}, {}), Growth(2 * n, 0, 0, {}, functions, {}, {})),
                           Growth(n, 0, 0, {}, {}, branches, {})), Growth(2 * n, 0, 0, {}, {}, {}, mcdc)),
                 Growth(n, n, 0, lines, {}, {}, {}))
            == Growth(6 * n + 1, n, 1, lines, functions, branches, mcdc)
  {
    assert {} + {} + {} + {} + lines == lines && {} + functions + {} + {} + {} == functions;
    assert {} + {} + branches + {} + {} == branches && {} + {} + {} + mcdc + {} == mcdc;
  }

  lemma CardinalityRecordsAre(target: int)
    ensures ProfileRecords(Profile(FamilyCardinality, target)) ==
            CardinalityBody(CARDINALITY_PATH, Size(target)) + [END_RECORD]
  {
    hide DataBlock, FunctionBlock, BranchBlock, McdcBlock, Tag;
  }

  lemma CardinalityProfileGrows(target: int)
    ensures var profile := Profile(FamilyCardinality, target);
            Grows([], ProfileRecords(profile), ProfileGrowth(profile), None)
  {
    hide *;
    var n, path := Size(target), CARDINALITY_PATH;
    CardinalityBlocksGrow(path, n);
    ClosingGrows(CardinalityBody(path, n), CardinalityTotal(path, n), path);
    CardinalityTotalIs(target);
    CardinalityRecordsAre(target);
  }

  lemma FieldProfileGrows(target: int)
    ensures var profile := Profile(FieldBytes, target);
            Grows([], ProfileRecords(profile), ProfileGrowth(profile), None)
  {
    hide Grows, KindOf, KeyOf, Payload, Tag, DataRecord, FieldsComplete, LineKey;
    var name, source, data := Tag("TN", Filler(Size(target))), Tag("SF", FIELD_PATH), DataRecord(1);
    TagFacts(Filler(Size(target)));
    SourceRecordFacts(FIELD_PATH);
    DataRecordFacts(1, FIELD_PATH);
    GrowsStart();
    GrowsOutside([], NO_GROWTH, None, name);
    GrowsOutside([] + [name], NO_GROWTH.(records := 1), None, source);
    GrowsBy([], [] + [name] + [source], NO_GROWTH.(records := 2, sections := 1), FIELD_PATH, data);
    var total := Grown(NO_GROWTH.(records := 2, sections := 1), Line, LineKey(FIELD_PATH)(1));
    ClosingGrows([] + [name] + [source] + [data], total, FIELD_PATH);
    assert total.(records := 4) == ProfileGrowth(Profile(FieldBytes, target));
    assert [] + [name] + [source] + [data] + [END_RECORD] == [name, source, data, END_RECORD];
  }

  lemma ProfileGrows(profile: Profile)
    ensures Grows([], ProfileRecords(profile), ProfileGrowth(profile), None)
  {
    hide Grows;
    match profile.axis
    case FieldBytes => FieldProfileGrows(profile.target);
    case DataRecords => RecordsProfileGrows(profile.target);
    case Sections => SectionBlockGrows(Size(profile.target));
    case FamilyCardinality => CardinalityProfileGrows(profile.target);
    case UnknownAxis(_) => GrowsStart();
  }
}
