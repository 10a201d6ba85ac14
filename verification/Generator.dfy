/**
 Writing a profile to a stream, checking its shape, and the theorem that joins them:
 analysing what was written gives the claimed closed form, at every size.
 */
module Generator {
  import opened Wrappers
  import opened Ordering
  import opened Text
  import opened Decimal
  import opened Tracefile
  import opened Profiles

  // ----- Shape validation -----

  datatype Summary = Summary(
    sourceFiles: int,
    linesFound: int,
    linesHit: int,
    functionsFound: Option<int>,
    functionsHit: Option<int>,
    branchesFound: Option<int>,
    branchesHit: Option<int>,
    conditionOutcomesFound: Option<int>,
    conditionOutcomesHit: Option<int>)

  /** What the reference tool is expected to report for a profile. */
  function ExpectedSummary(profile: Profile): Summary {
    var t := profile.target;
    var sources := if profile.axis.Sections? then t else 1;
    var lines := if profile.axis.FieldBytes? || profile.axis.UnknownAxis? then 1 else t;
    var family := if profile.axis.FamilyCardinality? then Some(t) else None;
    var outcomes := if profile.axis.FamilyCardinality? then Some(2 * t) else None;
    Summary(sources, lines, lines, family, family, family, family, outcomes, family)
  }

  datatype Drift = FieldSize | DataRecordCount | SectionCount | FamilyCardinalities | SourceFileShape | LineShape

  function ValidateShape(profile: Profile, shape: Shape): Option<Drift> {
    var t := profile.target;
    var expected := ExpectedSummary(profile);
    if profile.axis.FieldBytes? && shape.maximumFieldBytes != t then Some(FieldSize)
    else if profile.axis.DataRecords? && shape.dataRecordCount != t then Some(DataRecordCount)
    else if profile.axis.Sections? && shape.sectionCount != t then Some(SectionCount)
    else if profile.axis.FamilyCardinality?
         && {shape.lines as int, shape.functions as int, shape.branches as int, shape.mcdc as int} != {t} then
      Some(FamilyCardinalities)
    else if shape.sectionCount != expected.sourceFiles then Some(SourceFileShape)
    else if shape.lines != expected.linesFound then Some(LineShape)
    else None
  }

  // ----- Closed forms -----

  /** Every count of a generated profile of the given size. */
  ghost predicate ClosedForm(profile: Profile, shape: Shape) {
    var n := Size(profile.target);
    match profile.axis
    case FieldBytes =>
      && shape.recordCount == 4 && shape.dataRecordCount == 1 && shape.sectionCount == 1
      && shape.lines == 1 && shape.functions == shape.branches == shape.mcdc == 0
      && shape.maximumFieldBytes == Max(n, |FIELD_PATH|)
    case DataRecords =>
      && shape.recordCount == n + 2 && shape.dataRecordCount == n && shape.sectionCount == 1
      && shape.lines == n && shape.functions == shape.branches == shape.mcdc == 0
    case Sections =>
      && shape.recordCount == 3 * n && shape.dataRecordCount == n && shape.sectionCount == n
      && shape.lines == n && shape.functions == shape.branches == shape.mcdc == 0
    case FamilyCardinality =>
      && shape.recordCount == 6 * n + 2 && shape.dataRecordCount == n && shape.sectionCount == 1
      && shape.lines == shape.functions == shape.branches == shape.mcdc == n
    case UnknownAxis(_) => true
  }

  /** The smallest size a profile of this axis may have: the field axis needs its filler to
      be at least as long as the source path, which is the longest other field. */
  function LeastTarget(axis: Axis): nat {
    if axis.FieldBytes? then 16 else 0
  }

  lemma GrowthShape(profile: Profile)
    requires Clean(ProfileRecords(profile))
    ensures var r := Analysis(Frame(ProfileRecords(profile)));
            var g := ProfileGrowth(profile);
            && r.Ok?
            && r.value.recordCount == g.records && r.value.dataRecordCount == g.data
            && r.value.sectionCount == g.sections && r.value.lines == |g.lines|
            && r.value.functions == |g.functions| && r.value.branches == |g.branches|
            && r.value.mcdc == |g.mcdc|
  {
    hide ProfileRecords, ProfileGrowth, Frame, Records, Clean;
    var records, none: seq<Bytes> := ProfileRecords(profile), [];
    FramingRoundTrip(records);
    ProfileGrows(profile);
    assert none + records == records;
    var g := ProfileGrowth(profile);
    assert {} + g.lines == g.lines && {} + g.functions == g.functions;
    assert {} + g.branches == g.branches && {} + g.mcdc == g.mcdc;
    assert none + none == none;
  }

  lemma GrowthSizes(profile: Profile)
    requires !profile.axis.UnknownAxis?
    ensures var n, g := Size(profile.target), ProfileGrowth(profile);
            match profile.axis
            case FieldBytes => |g.lines| == 1
            case FamilyCardinality => |g.lines| == |g.functions| == |g.branches| == |g.mcdc| == n
            case _ => |g.lines| == n
  {
    hide Keys, LineKey, FunctionKey, BranchKey, ConditionKey;
    var n := Size(profile.target);
    match profile.axis
    case FieldBytes =>
    case DataRecords => FamilyKeysSize(RECORDS_PATH, n);
    case Sections => SectionKeysSize(n);
    case FamilyCardinality => FamilyKeysSize(CARDINALITY_PATH, n);
  }

  lemma FieldMaximum(target: int)
    requires Clean(ProfileRecords(Profile(FieldBytes, target)))
    ensures var r := Analysis(Frame(ProfileRecords(Profile(FieldBytes, target))));
            r.Ok? && r.value.maximumFieldBytes == Max(Size(target), |FIELD_PATH|)
  {
    hide Frame, Records, Clean, Payload, Tag, DataRecord, ScanRecords, CountsMean, SourceMeans, KeysMean;
    var profile := Profile(FieldBytes, target);
    var records := ProfileRecords(profile);
    GrowthShape(profile);
    FramingRoundTrip(records);
    ScanMeaning(records);
    FieldPayloads(Size(target));
    assert |Payload(records[0])| == Size(target);
    assert |Payload(records[1])| == |FIELD_PATH|;
    assert |Payload(records[2])| == 3 && |Payload(records[3])| == 0;
  }

  lemma FieldPayloads(n: nat)
    ensures Payload(Tag("TN", Filler(n))) == Filler(n)
    ensures Payload(Tag("SF", FIELD_PATH)) == FIELD_PATH
    ensures |Payload(DataRecord(1))| == 3
    ensures Payload(END_RECORD) == []
  {
    hide Payload, Tag, Print;
    TagPayload("TN", Filler(n));
    TagPayload("SF", FIELD_PATH);
    OneDigit();
    TagPayload("DA", Print(1) + [','] + "1");
    EndHasNoPayload();
  }

  lemma OneDigit()
    ensures |Print(1)| == 1
  {}

  lemma EndHasNoPayload()
    ensures Payload(END_RECORD) == []
  {
    IndexOfUnique(END_RECORD, ':', []);
  }

  // ----- Cleanliness of everything written -----

  lemma {:induction false} BlocksAreClean(n: nat)
    ensures Clean(DataBlock(n)) && Clean(FunctionBlock(n)) && Clean(BranchBlock(n)) && Clean(McdcBlock(n))
    ensures Clean(SectionBlock(n))
  {
    hide DataRecord, FunctionRecord, AliasRecord, BranchRecord, McdcRecord, Tag, SectionPath, CleanRecord;
    if n > 0 {
      BlocksAreClean(n - 1);
      RecordsAreClean(n);
      RecordsAreClean(1);
    }
  }

  lemma RecordsAreClean(n: nat)
    requires n > 0
    ensures CleanRecord(DataRecord(n)) && CleanRecord(FunctionRecord(n)) && CleanRecord(AliasRecord(n))
    ensures CleanRecord(BranchRecord(n)) && CleanRecord(McdcRecord(n, "t", "1")) && CleanRecord(McdcRecord(n, "f", "0"))
    ensures CleanRecord(Tag("SF", SectionPath(n))) && CleanRecord(END_RECORD)
  {
    hide KindOf, KeyOf, FieldsComplete, Payload, Print, PrintPadded;
    DataRecordFacts(n, []);
    FunctionRecordFacts(n, []);
    BranchRecordFacts(n, []);
    McdcPairFacts(n, []);
    DigitsAreClean(PrintPadded(n));
    SourceRecordFacts(SectionPath(n));
  }

  lemma HeadersAreClean(n: nat)
    ensures CleanRecord(Tag("TN", Filler(n)))
    ensures CleanRecord(Tag("SF", FIELD_PATH)) && CleanRecord(Tag("SF", RECORDS_PATH))
    ensures CleanRecord(Tag("SF", CARDINALITY_PATH))
  {
    hide Payload, KindOf;
    TagPayload("TN", Filler(n));
    SourceRecordFacts(FIELD_PATH);
    SourceRecordFacts(RECORDS_PATH);
    SourceRecordFacts(CARDINALITY_PATH);
  }

  lemma ProfileIsClean(profile: Profile)
    ensures Clean(ProfileRecords(profile))
  {
    hide Tag, DataBlock, FunctionBlock, BranchBlock, McdcBlock, SectionBlock, DataRecord, CleanRecord;
    var n := Size(profile.target);
    HeadersAreClean(n);
    BlocksAreClean(n);
    RecordsAreClean(1);
  }

  // ----- The theorem -----

  /** For every profile: analysing the written bytes never faults and gives the closed form;
      the shape is accepted exactly from the least target on; and an accepted shape agrees
      with the summary expected from the reference tool. */
  lemma GeneratedShape(profile: Profile)
    requires !profile.axis.UnknownAxis?
    ensures var r := Analysis(Frame(ProfileRecords(profile)));
            && r.Ok? && ClosedForm(profile, r.value)
            && r.value.digested == Frame(ProfileRecords(profile))
            && (ValidateShape(profile, r.value).None? <==> profile.target >= LeastTarget(profile.axis))
            && (ValidateShape(profile, r.value).None? ==> AgreesWith(ExpectedSummary(profile), r.value))
  {
    hide ProfileRecords, Frame, Records, Clean, ScanRecords, Keys, LineKey, FunctionKey, BranchKey, ConditionKey;
    ProfileIsClean(profile);
    GrowthShape(profile);
    GrowthSizes(profile);
    if profile.axis.FieldBytes? {
      FieldMaximum(profile.target);
      assert |FIELD_PATH| == 16;
    }
  }

  ghost predicate Reports(found: Option<int>, count: nat) {
    match found
    case None => count == 0
    case Some(k) => k == count
  }

  /** Each reported total is the analysed count; a condition counts once per outcome. */
  ghost predicate AgreesWith(summary: Summary, shape: Shape) {
    && shape.sectionCount == summary.sourceFiles
    && shape.lines == summary.linesFound == summary.linesHit
    && Reports(summary.functionsFound, shape.functions)
    && Reports(summary.branchesFound, shape.branches)
    && Reports(summary.conditionOutcomesFound, 2 * shape.mcdc)
    && Reports(summary.conditionOutcomesHit, shape.mcdc)
  }

  // ----- Writing -----

  class Stream {
    var data: Bytes

    constructor ()
      ensures data == []
    {
      data := [];
    }
  }

  /** `_emit`: refuses a record that contains a line ending, and then writes nothing. */
  method Emit(output: Stream, record: Bytes) returns (ok: bool)
    modifies output
    ensures ok <==> LineFree(record)
    ensures output.data == if ok then old(output.data) + (record + "\n") else old(output.data)
  {
    ok := '\n' !in record && '\r' !in record;
    if ok {
      output.data := output.data + (record + "\n");
    }
  }

  /** The stream held `before`, and `records` have been written since. */
  ghost predicate Wrote(before: Bytes, data: Bytes, records: seq<Bytes>) {
    data == before + Frame(records)
  }

  lemma WroteMore(before: Bytes, data: Bytes, records: seq<Bytes>, record: Bytes)
    requires Wrote(before, data, records) && CleanRecord(record)
    ensures Wrote(before, data + (record + "\n"), records + [record])
    ensures LineFree(record)
  {
    hide Frame;
    FrameSnoc(records, record);
    assert (before + Frame(records)) + (record + "\n") == before + (Frame(records) + (record + "\n"));
  }

  lemma WroteNothing(data: Bytes)
    ensures Wrote(data, data, [])
  {
    assert data + [] == data;
  }

  // In each writer the `assert ok` after a write says that the refusal cannot happen there.

  method WriteFieldProfile(output: Stream, target: int)
    modifies output
    ensures Wrote(old(output.data), output.data, ProfileRecords(Profile(FieldBytes, target)))
  {
    hide Wrote, Tag, DataRecord, CleanRecord, LineFree;
    var name, source := Tag("TN", Filler(Size(target))), Tag("SF", FIELD_PATH);
    HeadersAreClean(Size(target));
    RecordsAreClean(1);
    ghost var before := output.data;
    WroteNothing(before);
    WroteMore(before, output.data, [], name);
    var ok := Emit(output, name);
    assert ok;
    WroteMore(before, output.data, [] + [name], source);
    ok := Emit(output, source);
    assert ok;
    WroteMore(before, output.data, [] + [name] + [source], DataRecord(1));
    ok := Emit(output, DataRecord(1));
    assert ok;
    WroteMore(before, output.data, [] + [name] + [source] + [DataRecord(1)], END_RECORD);
    ok := Emit(output, END_RECORD);
    assert ok;
    assert [] + [name] + [source] + [DataRecord(1)] + [END_RECORD] == [name, source, DataRecord(1), END_RECORD];
  }

  method WriteRecordProfile(output: Stream, target: int)
    modifies output
    ensures Wrote(old(output.data), output.data, ProfileRecords(Profile(DataRecords, target)))
  {
    hide Wrote, Tag, DataBlock, CleanRecord, LineFree;
    var source := Tag("SF", RECORDS_PATH);
    HeadersAreClean(0);
    RecordsAreClean(1);
    ghost var before := output.data;
    WroteNothing(before);
    WroteMore(before, output.data, [], source);
    var ok := Emit(output, source);
    assert ok && [] + [source] == [source];
    EmitData(output, target, before, [source]);
    WroteMore(before, output.data, [source] + DataBlock(Size(target)), END_RECORD);
    ok := Emit(output, END_RECORD);
    assert ok;
  }

  method WriteSectionProfile(output: Stream, target: int)
    modifies output
    ensures Wrote(old(output.data), output.data, ProfileRecords(Profile(Sections, target)))
  {
    hide Wrote, Tag, SectionPath, DataRecord, CleanRecord, LineFree;
    ghost var before := output.data;
    WroteNothing(before);
    RecordsAreClean(1);
    var index := 1;
    while index < target + 1
      invariant 1 <= index <= Size(target) + 1
      invariant Wrote(before, output.data, SectionBlock(index - 1))
    {
      var source := Tag("SF", SectionPath(index));
      ghost var done := SectionBlock(index - 1);
      RecordsAreClean(index);
      WroteMore(before, output.data, done, source);
      var ok := Emit(output, source);
      assert ok;
      WroteMore(before, output.data, done + [source], DataRecord(1));
      ok := Emit(output, DataRecord(1));
      assert ok;
      WroteMore(before, output.data, done + [source] + [DataRecord(1)], END_RECORD);
      ok := Emit(output, END_RECORD);
      assert ok && done + [source] + [DataRecord(1)] + [END_RECORD] == SectionBlock(index);
      index := index + 1;
    }
  }

  // The loops of the record and cardinality writers, each behind the records already written.

  method EmitFunctions(output: Stream, target: int, ghost before: Bytes, ghost start: seq<Bytes>)
    requires Wrote(before, output.data, start)
    modifies output
    ensures Wrote(before, output.data, start + FunctionBlock(Size(target)))
  {
    hide Wrote, FunctionRecord, AliasRecord, CleanRecord, LineFree;
    assert start == start + FunctionBlock(0);
    var index := 1;
    while index < target + 1
      invariant 1 <= index <= Size(target) + 1
      invariant Wrote(before, output.data, start + FunctionBlock(index - 1))
    {
      ghost var done := start + FunctionBlock(index - 1);
      RecordsAreClean(index);
      WroteMore(before, output.data, done, FunctionRecord(index));
      var ok := Emit(output, FunctionRecord(index));
      assert ok;
      WroteMore(before, output.data, done + [FunctionRecord(index)], AliasRecord(index));
      ok := Emit(output, AliasRecord(index));
      assert ok && done + [FunctionRecord(index)] + [AliasRecord(index)] == start + FunctionBlock(index);
      index := index + 1;
    }
  }

  method EmitBranches(output: Stream, target: int, ghost before: Bytes, ghost start: seq<Bytes>)
    requires Wrote(before, output.data, start)
    modifies output
    ensures Wrote(before, output.data, start + BranchBlock(Size(target)))
  {
    hide Wrote, BranchRecord, CleanRecord, LineFree;
    assert start == start + BranchBlock(0);
    var index := 1;
    while index < target + 1
      invariant 1 <= index <= Size(target) + 1
      invariant Wrote(before, output.data, start + BranchBlock(index - 1))
    {
      RecordsAreClean(index);
      WroteMore(before, output.data, start + BranchBlock(index - 1), BranchRecord(index));
      var ok := Emit(output, BranchRecord(index));
      assert ok && start + BranchBlock(index - 1) + [BranchRecord(index)] == start + BranchBlock(index);
      index := index + 1;
    }
  }

  method EmitConditions(output: Stream, target: int, ghost before: Bytes, ghost start: seq<Bytes>)
    requires Wrote(before, output.data, start)
    modifies output
    ensures Wrote(before, output.data, start + McdcBlock(Size(target)))
  {
    hide Wrote, McdcRecord, CleanRecord, LineFree;
    assert start == start + McdcBlock(0);
    var index := 1;
    while index < target + 1
      invariant 1 <= index <= Size(target) + 1
      invariant Wrote(before, output.data, start + McdcBlock(index - 1))
    {
      var t, f := McdcRecord(index, "t", "1"), McdcRecord(index, "f", "0");
      ghost var done := start + McdcBlock(index - 1);
      RecordsAreClean(index);
      WroteMore(before, output.data, done, t);
      var ok := Emit(output, t);
      assert ok;
      WroteMore(before, output.data, done + [t], f);
      ok := Emit(output, f);
      assert ok && done + [t] + [f] == start + McdcBlock(index);
      index := index + 1;
    }
  }

  method EmitData(output: Stream, target: int, ghost before: Bytes, ghost start: seq<Bytes>)
    requires Wrote(before, output.data, start)
    modifies output
    ensures Wrote(before, output.data, start + DataBlock(Size(target)))
  {
    hide Wrote, DataRecord, CleanRecord, LineFree;
    assert start == start + DataBlock(0);
    var index := 1;
    while index < target + 1
      invariant 1 <= index <= Size(target) + 1
      invariant Wrote(before, output.data, start + DataBlock(index - 1))
    {
      RecordsAreClean(index);
      WroteMore(before, output.data, start + DataBlock(index - 1), DataRecord(index));
      var ok := Emit(output, DataRecord(index));
      assert ok && start + DataBlock(index - 1) + [DataRecord(index)] == start + DataBlock(index);
      index := index + 1;
    }
  }

  method WriteCardinalityProfile(output: Stream, target: int)
    modifies output
    ensures Wrote(old(output.data), output.data, ProfileRecords(Profile(FamilyCardinality, target)))
  {
    hide Wrote, Tag, FunctionBlock, BranchBlock, McdcBlock, DataBlock, CleanRecord, LineFree;
    var n, source := Size(target), Tag("SF", CARDINALITY_PATH);
    HeadersAreClean(0);
    RecordsAreClean(1);
    ghost var before := output.data;
    WroteNothing(before);
    WroteMore(before, output.data, [], source);
    var ok := Emit(output, source);
    assert ok && [] + [source] == [source];
    EmitFunctions(output, target, before, [source]);
    EmitBranches(output, target, before, [source] + FunctionBlock(n));
    EmitConditions(output, target, before, [source] + FunctionBlock(n) + BranchBlock(n));
    EmitData(output, target, before, [source] + FunctionBlock(n) + BranchBlock(n) + McdcBlock(n));
    ghost var done := [source] + FunctionBlock(n) + BranchBlock(n) + McdcBlock(n) + DataBlock(n);
    WroteMore(before, output.data, done, END_RECORD);
    ok := Emit(output, END_RECORD);
    assert ok;
  }

  datatype GenerationError = UnknownProfileAxis | Drifted(drift: Drift)

  /** `generate_and_analyze`: write the profile, analyse the bytes, validate the shape. */
  method GenerateAndAnalyze(profile: Profile) returns (r: Result<Shape, GenerationError>)
    ensures r.Ok? <==> !profile.axis.UnknownAxis? && profile.target >= LeastTarget(profile.axis)
    ensures r.Ok? ==> ClosedForm(profile, r.value) && AgreesWith(ExpectedSummary(profile), r.value)
    ensures r.Ok? ==> r.value.digested == Frame(ProfileRecords(profile))
    ensures r.Err? ==> r.error == if profile.axis.UnknownAxis? then UnknownProfileAxis else
              Drifted(match profile.axis case FieldBytes => FieldSize case DataRecords => DataRecordCount
                      case Sections => SectionCount case _ => FamilyCardinalities)
  {
    hide Frame, ProfileRecords, Analysis, AgreesWith, ClosedForm, ValidateShape;
    var output := new Stream();
    match profile.axis {
      case FieldBytes => WriteFieldProfile(output, profile.target);
      case DataRecords => WriteRecordProfile(output, profile.target);
      case Sections => WriteSectionProfile(output, profile.target);
      case FamilyCardinality => WriteCardinalityProfile(output, profile.target);
      case UnknownAxis(_) => return Err(UnknownProfileAxis);
    }
    assert output.data == Frame(ProfileRecords(profile));
    GeneratedShape(profile);
    var analysed := AnalyzeInput(output.data);
    assert analysed.Ok?;
    var drift := ValidateShape(profile, analysed.value);
    if drift.Some? {
      SmallTargetDrift(profile, analysed.value);
      return Err(Drifted(drift.value));
    }
    return Ok(analysed.value);
  }

  /** Which drift a target below the least one reports. */
  lemma SmallTargetDrift(profile: Profile, shape: Shape)
    requires !profile.axis.UnknownAxis? && ClosedForm(profile, shape) && profile.target < LeastTarget(profile.axis)
    ensures ValidateShape(profile, shape) ==
            Some(match profile.axis case FieldBytes => FieldSize case DataRecords => DataRecordCount
                 case Sections => SectionCount case _ => FamilyCardinalities)
  {
    if profile.axis.FamilyCardinality? {
      assert shape.lines as int in
             {shape.lines as int, shape.functions as int, shape.branches as int, shape.mcdc as int};
    }
  }

  // ----- Which drift -----

  /** A shape of any origin drifts by the check of its own axis first, then by its sections, then by its
      lines; it is accepted when none of the three is off. */
  lemma DriftIs(profile: Profile, shape: Shape)
    ensures var d, t, axis := ValidateShape(profile, shape), profile.target, profile.axis;
            var field := axis.FieldBytes? && shape.maximumFieldBytes != t;
            var data := axis.DataRecords? && shape.dataRecordCount != t;
            var sections := axis.Sections? && shape.sectionCount != t;
            var family := axis.FamilyCardinality?
                          && (shape.lines != t || shape.functions != t || shape.branches != t || shape.mcdc != t);
            var own := field || data || sections || family;
            var source := shape.sectionCount != if axis.Sections? then t else 1;
            var line := shape.lines != if axis.DataRecords? || axis.Sections? || axis.FamilyCardinality? then t else 1;
            && (d == Some(FieldSize) <==> field) && (d == Some(DataRecordCount) <==> data)
            && (d == Some(SectionCount) <==> sections) && (d == Some(FamilyCardinalities) <==> family)
            && (d == Some(SourceFileShape) <==> !own && source) && (d == Some(LineShape) <==> !own && !source && line)
            && (d == None <==> !own && !source && !line)
  {
    FourEqual(shape.lines, shape.functions, shape.branches, shape.mcdc, profile.target);
  }

  lemma FourEqual(a: int, b: int, c: int, d: int, t: int)
    ensures {a, b, c, d} == {t} <==> a == t && b == t && c == t && d == t
  {
    if {a, b, c, d} == {t} {
      assert a in {t} && b in {t} && c in {t} && d in {t};
    }
  }
}
