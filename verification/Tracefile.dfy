/**
 The streaming tracefile analyser of the resource harness: line framing, comma fields,
 section state, counters and the four key sets.
 */
module Tracefile {
  import opened Wrappers
  import opened Ordering
  import opened Text

  // ----- Splitting -----

  /** Position of the first `c` in `s`, or `|s|`. */
  function IndexOf(s: Bytes, c: char): (k: nat)
    ensures k <= |s|
    ensures c !in s[..k]
    ensures k < |s| ==> s[k] == c
  {
    if s == [] || s[0] == c then 0
    else
      assert s[..1 + IndexOf(s[1..], c)] == [s[0]] + s[1..][..IndexOf(s[1..], c)];
      1 + IndexOf(s[1..], c)
  }

  lemma {:induction false} IndexOfUnique(left: Bytes, c: char, right: Bytes)
    requires c !in left
    ensures IndexOf(left + [c] + right, c) == |left|
    ensures IndexOf(left, c) == |left|
  {
    if left == [] {
      assert left + [c] + right == [c] + right;
    } else {
      IndexOfUnique(left[1..], c, right);
      assert (left + [c] + right)[1..] == left[1..] + [c] + right;
    }
  }

  /** Python's `s.split(sep, maximum)`. */
  function Split(s: Bytes, sep: char, maximum: nat): (fields: seq<Bytes>)
    ensures 1 <= |fields| <= maximum + 1
    decreases maximum
  {
    var k := IndexOf(s, sep);
    if maximum == 0 || k == |s| then [s]
    else [s[..k]] + Split(s[k + 1..], sep, maximum - 1)
  }

  lemma SplitStep(left: Bytes, sep: char, right: Bytes, maximum: nat)
    requires sep !in left && maximum > 0
    ensures Split(left + [sep] + right, sep, maximum) == [left] + Split(right, sep, maximum - 1)
  {
    IndexOfUnique(left, sep, right);
    var whole := left + [sep] + right;
    assert whole[..|left|] == left && whole[|left| + 1..] == right;
  }

  lemma SplitWhole(s: Bytes, sep: char, maximum: nat)
    requires sep !in s
    ensures Split(s, sep, maximum) == [s]
  {
    IndexOfUnique(s, sep, []);
  }

  // ----- Line framing -----

  /** The lines a binary stream yields: each keeps its line feed, the last may lack one. */
  function Lines(content: Bytes): (lines: seq<Bytes>)
  {
    if content == [] then []
    else [FirstLine(content)] + Lines(content[|FirstLine(content)|..])
  }

  function FirstLine(content: Bytes): (line: Bytes)
    requires content != []
    ensures line != [] && line <= content
    ensures '\n' !in line[..|line| - 1]
    ensures |line| < |content| ==> line[|line| - 1] == '\n'
  {
    var k := IndexOf(content, '\n');
    if k == |content| then content
    else
      assert content[..k + 1][..k] == content[..k];
      content[..k + 1]
  }

  predicate EndsWith(s: Bytes, c: char) {
    s != [] && s[|s| - 1] == c
  }

  /** The first line is the prefix that ends at the first line feed, or all there is. */
  lemma FirstLineIs(s: Bytes, line: Bytes)
    requires line != [] && line <= s && '\n' !in line[..|line| - 1]
    requires EndsWith(line, '\n') || line == s
    ensures FirstLine(s) == line
  {
    var body := line[..|line| - 1];
    if EndsWith(line, '\n') {
      assert s == body + ['\n'] + s[|line|..];
      IndexOfUnique(body, '\n', s[|line|..]);
    } else {
      assert '\n' !in line by { assert line == body + [line[|line| - 1]]; }
      IndexOfUnique(line, '\n', []);
    }
  }

  /** The logical record of a raw line: one LF and then one CR removed from its end. */
  function Strip(raw: Bytes): (record: Bytes)
  {
    var unfed := if raw != [] && raw[|raw| - 1] == '\n' then raw[..|raw| - 1] else raw;
    if unfed != [] && unfed[|unfed| - 1] == '\r' then unfed[..|unfed| - 1] else unfed
  }

  /** The non-empty logical records among the given lines. */
  function RecordsOf(lines: seq<Bytes>): (records: seq<Bytes>)
    ensures |records| <= |lines|
    ensures forall i :: 0 <= i < |records| ==> records[i] != []
  {
    if lines == [] then []
    else
      var record := Strip(lines[0]);
      (if record == [] then [] else [record]) + RecordsOf(lines[1..])
  }

  function Records(content: Bytes): (records: seq<Bytes>)
    ensures forall i :: 0 <= i < |records| ==> records[i] != []
  {
    RecordsOf(Lines(content))
  }

  lemma RecordsHead(content: Bytes)
    requires content != []
    ensures var line := FirstLine(content);
            Records(content) ==
            (if Strip(line) == [] then [] else [Strip(line)]) + Records(content[|line|..])
  {
    hide Strip, FirstLine;
    assert Lines(content)[1..] == Lines(content[|FirstLine(content)|..]);
  }

  /** The reading loop has taken `digested` and its records `seen`, and `rest` is still to come. */
  ghost predicate Progress(content: Bytes, digested: Bytes, seen: seq<Bytes>, rest: Bytes) {
    digested + rest == content && seen + Records(rest) == Records(content)
  }

  lemma Advance(content: Bytes, digested: Bytes, seen: seq<Bytes>, rest: Bytes)
    requires rest != [] && Progress(content, digested, seen, rest)
    ensures var line := FirstLine(rest);
            var taken := if Strip(line) == [] then seen else seen + [Strip(line)];
            Progress(content, digested + line, taken, rest[|line|..])
  {
    hide Records, FirstLine, Strip;
    RecordsHead(rest);
    var line := FirstLine(rest);
    assert line + rest[|line|..] == rest;
  }

  lemma {:induction false} RecordsOfAppend(a: seq<Bytes>, b: seq<Bytes>)
    ensures RecordsOf(a + b) == RecordsOf(a) + RecordsOf(b)
  {
    if a == [] {
      assert a + b == b;
    } else {
      assert (a + b)[1..] == a[1..] + b;
      RecordsOfAppend(a[1..], b);
    }
  }

  // ----- Records -----

  function Payload(record: Bytes): (payload: Bytes)
    ensures |payload| <= |record|
  {
    var k := IndexOf(record, ':');
    if k == |record| then [] else record[k + 1..]
  }

  lemma PayloadOf(tag: Bytes, rest: Bytes)
    requires ':' !in tag
    ensures Payload(tag + ":" + rest) == rest
  {
    IndexOfUnique(tag, ':', rest);
    assert tag + ":" + rest == tag + [':'] + rest;
  }

  predicate Tagged(record: Bytes, tag: Bytes) {
    tag <= record
  }

  datatype Kind = Source | EndOfRecord | Line | Function | Branch | Mcdc | Other

  function KindOf(record: Bytes): (kind: Kind)
  {
    if Tagged(record, "SF:") then Source
    else if record == "end_of_record" then EndOfRecord
    else if Tagged(record, "DA:") then Line
    else if Tagged(record, "FNL:") then Function
    else if Tagged(record, "BRDA:") then Branch
    else if Tagged(record, "MCDC:") then Mcdc
    else Other
  }

  predicate IsCoverage(kind: Kind) {
    kind == Line || kind == Function || kind == Branch || kind == Mcdc
  }

  /** The tuple the analyser files a coverage record under, given the open source. */
  function KeyOf(source: Bytes, record: Bytes): (key: seq<Bytes>)
  {
    var payload := Payload(record);
    match KindOf(record)
    case Branch =>
      var fields := Split(payload, ',', 3);
      [source] + if |fields| < 3 then fields else fields[..3]
    case Mcdc =>
      // Fields 2 and 3 (the sense and its count) are not part of the identity.
      var fields := Split(payload, ',', 5);
      if |fields| == 6 then [source, fields[0], fields[1], fields[4], fields[5]] else [source]
    case _ => [source, Split(payload, ',', 1)[0]]
  }

  /** The analyser insists on six fields in an MC/DC record. */
  predicate FieldsComplete(record: Bytes) {
    KindOf(record) == Mcdc ==> |Split(Payload(record), ',', 5)| == 6
  }

  // ----- Scanning -----

  datatype Fault = OutsideSection | McdcFieldCount

  datatype Scan = Scan(
    recordCount: nat,
    dataRecordCount: nat,
    sectionCount: nat,
    maxRecordBytes: nat,
    maxFieldBytes: nat,
    currentSource: Option<Bytes>,
    lineKeys: set<seq<Bytes>>,
    functionKeys: set<seq<Bytes>>,
    branchKeys: set<seq<Bytes>>,
    mcdcKeys: set<seq<Bytes>>)

  const EMPTY_SCAN := Scan(0, 0, 0, 0, 0, None, {}, {}, {}, {})

  /** What one record does to the scan. */
  function Step(a: Scan, record: Bytes): Result<Scan, Fault> {
    var b := a.(recordCount := a.recordCount + 1,
                maxRecordBytes := Max(a.maxRecordBytes, |record|),
                maxFieldBytes := Max(a.maxFieldBytes, |Payload(record)|));
    match KindOf(record)
    case Source => Ok(b.(currentSource := Some(Payload(record)), sectionCount := a.sectionCount + 1))
    case EndOfRecord => Ok(b.(currentSource := None))
    case Other => Ok(b)
    case kind =>
      if a.currentSource.None? then Err(OutsideSection)
      else if !FieldsComplete(record) then Err(McdcFieldCount)
      else
        var key := KeyOf(a.currentSource.value, record);
        match kind
        case Line => Ok(b.(dataRecordCount := a.dataRecordCount + 1, lineKeys := a.lineKeys + {key}))
        case Function => Ok(b.(functionKeys := a.functionKeys + {key}))
        case Branch => Ok(b.(branchKeys := a.branchKeys + {key}))
        case _ => Ok(b.(mcdcKeys := a.mcdcKeys + {key}))
  }

  function ScanRecords(records: seq<Bytes>): (r: Result<Scan, Fault>)
  {
    if records == [] then Ok(EMPTY_SCAN)
    else
      match ScanRecords(records[..|records| - 1])
      case Err(fault) => Err(fault)
      case Ok(a) => Step(a, records[|records| - 1])
  }

  lemma ScanSnoc(records: seq<Bytes>, record: Bytes)
    ensures ScanRecords(records + [record]) ==
            match ScanRecords(records)
            case Err(fault) => Err(fault)
            case Ok(a) => Step(a, record)
  {
    assert (records + [record])[..|records|] == records;
  }

  lemma {:induction false} FaultPersists(records: seq<Bytes>, more: seq<Bytes>)
    requires ScanRecords(records).Err?
    ensures ScanRecords(records + more) == ScanRecords(records)
  {
    if more == [] {
      assert records + more == records;
    } else {
      var init := more[..|more| - 1];
      FaultPersists(records, init);
      assert records + more == (records + init) + [more[|more| - 1]];
      ScanSnoc(records + init, more[|more| - 1]);
    }
  }

  // ----- The analyser -----

  datatype Shape = Shape(
    digested: Bytes,
    inputBytes: nat,
    recordCount: nat,
    dataRecordCount: nat,
    sectionCount: nat,
    maximumRecordBytes: nat,
    maximumFieldBytes: nat,
    lines: nat,
    functions: nat,
    branches: nat,
    mcdc: nat)

  /** The result as the caller sees it; `digested` stands for the SHA-256 of those bytes. */
  function ShapeOf(content: Bytes, a: Scan): Shape {
    Shape(content, |content|, a.recordCount, a.dataRecordCount, a.sectionCount,
          a.maxRecordBytes, a.maxFieldBytes,
          |a.lineKeys|, |a.functionKeys|, |a.branchKeys|, |a.mcdcKeys|)
  }

  function Analysis(content: Bytes): Result<Shape, Fault> {
    match ScanRecords(Records(content))
    case Err(fault) => Err(fault)
    case Ok(a) => Ok(ShapeOf(content, a))
  }

  /** `analyze_input`: one pass over the stream, updating the counters and key sets in place. */
  method AnalyzeInput(content: Bytes) returns (r: Result<Shape, Fault>)
    ensures r == Analysis(content)
  {
    hide Progress, Records, FirstLine, Strip, Tagged, Split, IndexOf, Payload, ScanRecords, Analysis;
    var digested: Bytes, inputBytes := [], 0;
    var a := EMPTY_SCAN;
    var rest := content;
    ghost var seen: seq<Bytes> := [];
    ProgressStart(content);
    while rest != []
      invariant Progress(content, digested, seen, rest) && inputBytes == |digested|
      invariant ScanRecords(seen) == Ok(a)
      decreases |rest|
    {
      var raw := FirstLine(rest);
      Advance(content, digested, seen, rest);
      digested := digested + raw;
      inputBytes := inputBytes + |raw|;
      rest := rest[|raw|..];
      var record := Strip(raw);
      if record != [] {
        ScanSnoc(seen, record);
        seen := seen + [record];
        a := a.(recordCount := a.recordCount + 1,
                maxRecordBytes := Max(a.maxRecordBytes, |record|),
                maxFieldBytes := Max(a.maxFieldBytes, |Payload(record)|));
        if Tagged(record, "SF:") {
          a := a.(currentSource := Some(Payload(record)), sectionCount := a.sectionCount + 1);
        } else if record == "end_of_record" {
          a := a.(currentSource := None);
        } else if Tagged(record, "DA:") || Tagged(record, "FNL:") || Tagged(record, "BRDA:")
                  || Tagged(record, "MCDC:") {
          if a.currentSource.None? {
            ProgressFault(content, digested, seen, rest);
            return Err(OutsideSection);
          }
          var source, payload := a.currentSource.value, Payload(record);
          if Tagged(record, "DA:") {
            a := a.(dataRecordCount := a.dataRecordCount + 1,
                    lineKeys := a.lineKeys + {[source, Split(payload, ',', 1)[0]]});
          } else if Tagged(record, "FNL:") {
            a := a.(functionKeys := a.functionKeys + {[source, Split(payload, ',', 1)[0]]});
          } else if Tagged(record, "BRDA:") {
            var fields := Split(payload, ',', 3);
            a := a.(branchKeys := a.branchKeys + {[source] + if |fields| < 3 then fields else fields[..3]});
          } else {
            var fields := Split(payload, ',', 5);
            if |fields| != 6 {
              ProgressFault(content, digested, seen, rest);
              return Err(McdcFieldCount);
            }
            a := a.(mcdcKeys := a.mcdcKeys + {[source, fields[0], fields[1], fields[4], fields[5]]});
          }
        }
      }
    }
    ProgressDone(content, digested, seen, a);
    return Ok(Shape(digested, inputBytes, a.recordCount, a.dataRecordCount, a.sectionCount,
                    a.maxRecordBytes, a.maxFieldBytes,
                    |a.lineKeys|, |a.functionKeys|, |a.branchKeys|, |a.mcdcKeys|));
  }

  lemma ProgressStart(content: Bytes)
    ensures Progress(content, [], [], content) && ScanRecords([]) == Ok(EMPTY_SCAN)
  {
    assert [] + content == content;
  }

  lemma ProgressFault(content: Bytes, digested: Bytes, seen: seq<Bytes>, rest: Bytes)
    requires Progress(content, digested, seen, rest) && ScanRecords(seen).Err?
    ensures Analysis(content) == Err(ScanRecords(seen).error)
  {
    hide Records, ScanRecords;
    FaultPersists(seen, Records(rest));
  }

  lemma ProgressDone(content: Bytes, digested: Bytes, seen: seq<Bytes>, a: Scan)
    requires Progress(content, digested, seen, []) && ScanRecords(seen) == Ok(a)
    ensures digested == content && Analysis(content) == Ok(ShapeOf(content, a))
  {
    assert Records([]) == [];
    hide Records;
    assert digested + [] == digested && seen + [] == seen;
  }

  // ----- What a scan means, for every list of records -----

  predicate Opens(record: Bytes, source: Bytes) {
    KindOf(record) == Source && Payload(record) == source
  }

  predicate IsBoundary(record: Bytes) {
    KindOf(record) == Source || KindOf(record) == EndOfRecord
  }

  /** Position `i` lies in a section of `source`: the nearest boundary before it opens that section. */
  ghost predicate InSection(records: seq<Bytes>, i: nat, source: Bytes)
    requires i <= |records|
  {
    exists j :: 0 <= j < i && Opens(records[j], source)
             && forall k :: j < k < i ==> !IsBoundary(records[k])
  }

  /** Record `i` has the given kind and belongs to a section of `source`. */
  ghost predicate At(records: seq<Bytes>, i: int, kind: Kind, source: Bytes) {
    0 <= i < |records| && KindOf(records[i]) == kind && InSection(records, i, source)
  }

  function Positions(records: seq<Bytes>, kind: Kind): set<int> {
    set i | 0 <= i < |records| && KindOf(records[i]) == kind
  }

  /** Record `i` is one that stops the analyser, with the given fault. */
  ghost predicate Faulty(records: seq<Bytes>, i: int, fault: Fault) {
    0 <= i < |records| &&
    match fault
    case OutsideSection => IsCoverage(KindOf(records[i])) && forall source :: !InSection(records, i, source)
    case McdcFieldCount => (exists source :: At(records, i, Mcdc, source)) && !FieldsComplete(records[i])
  }

  ghost predicate CountsMean(records: seq<Bytes>, a: Scan) {
    && a.recordCount == |records|
    && a.dataRecordCount == |Positions(records, Line)|
    && a.sectionCount == |Positions(records, Source)|
  }

  ghost predicate MaximaMean(records: seq<Bytes>, a: Scan) {
    && (forall i :: 0 <= i < |records| ==>
          |records[i]| <= a.maxRecordBytes && |Payload(records[i])| <= a.maxFieldBytes)
    && (a.maxRecordBytes == 0 || exists i :: 0 <= i < |records| && |records[i]| == a.maxRecordBytes)
    && (a.maxFieldBytes == 0 || exists i :: 0 <= i < |records| && |Payload(records[i])| == a.maxFieldBytes)
  }

  ghost predicate SourceMeans(records: seq<Bytes>, a: Scan) {
    forall source :: a.currentSource == Some(source) <==> InSection(records, |records|, source)
  }

  ghost predicate KeysMean(records: seq<Bytes>, kind: Kind, keys: set<seq<Bytes>>) {
    forall key :: key in keys <==>
      exists i, source :: At(records, i, kind, source) && key == KeyOf(source, records[i])
  }

  /** The scan says exactly what a reader of the whole record list would say. */
  ghost predicate Means(records: seq<Bytes>, a: Scan) {
    && CountsMean(records, a)
    && MaximaMean(records, a)
    && SourceMeans(records, a)
    && KeysMean(records, Line, a.lineKeys)
    && KeysMean(records, Function, a.functionKeys)
    && KeysMean(records, Branch, a.branchKeys)
    && KeysMean(records, Mcdc, a.mcdcKeys)
  }

  lemma InSectionSnoc(records: seq<Bytes>, record: Bytes)
    ensures forall i: nat, source :: i <= |records| ==>
              (InSection(records + [record], i, source) <==> InSection(records, i, source))
    ensures forall source :: InSection(records + [record], |records| + 1, source) <==>
              Opens(record, source) || (!IsBoundary(record) && InSection(records, |records|, source))
  {
    hide KindOf, Payload, Split, IndexOf, KeyOf;
    var longer := records + [record];
    assert forall k :: 0 <= k < |records| ==> longer[k] == records[k];
    forall source
      ensures InSection(longer, |records| + 1, source) <==>
              Opens(record, source) || (!IsBoundary(record) && InSection(records, |records|, source))
    {
      if Opens(record, source) {
        assert Opens(longer[|records|], source);
      } else if !IsBoundary(record) && InSection(records, |records|, source) {
        var j :| 0 <= j < |records| && Opens(records[j], source)
              && forall k :: j < k < |records| ==> !IsBoundary(records[k]);
        assert Opens(longer[j], source);
      } else {
        assert longer[|records|] == record;
      }
    }
    forall i: nat, source | i <= |records|
      ensures InSection(longer, i, source) <==> InSection(records, i, source)
    {
      if InSection(records, i, source) {
        var j :| 0 <= j < i && Opens(records[j], source) && forall k :: j < k < i ==> !IsBoundary(records[k]);
        assert Opens(longer[j], source);
      }
      if InSection(longer, i, source) {
        var j :| 0 <= j < i && Opens(longer[j], source) && forall k :: j < k < i ==> !IsBoundary(longer[k]);
        assert Opens(records[j], source);
      }
    }
  }

  lemma AtSnoc(records: seq<Bytes>, record: Bytes)
    ensures forall i, kind, source :: At(records + [record], i, kind, source) <==>
              At(records, i, kind, source)
              || (i == |records| && KindOf(record) == kind && InSection(records, |records|, source))
  {
    hide KindOf, Payload, Split, IndexOf, KeyOf;
    InSectionSnoc(records, record);
  }

  lemma PositionsSnoc(records: seq<Bytes>, record: Bytes, kind: Kind)
    ensures |Positions(records + [record], kind)| ==
            |Positions(records, kind)| + if KindOf(record) == kind then 1 else 0
  {
    hide KindOf;
    assert Positions(records + [record], kind) ==
           Positions(records, kind) + if KindOf(record) == kind then {|records|} else {};
  }

  lemma CountsSnoc(records: seq<Bytes>, record: Bytes, a: Scan)
    requires CountsMean(records, a) && Step(a, record).Ok?
    ensures CountsMean(records + [record], Step(a, record).value)
  {
    hide KindOf, Payload, FieldsComplete, KeyOf, Positions;
    PositionsSnoc(records, record, Line);
    PositionsSnoc(records, record, Source);
  }

  lemma MaximaSnoc(records: seq<Bytes>, record: Bytes, a: Scan)
    requires MaximaMean(records, a) && Step(a, record).Ok?
    ensures MaximaMean(records + [record], Step(a, record).value)
  {
    hide KindOf, Payload, Split, IndexOf, KeyOf;
    var longer, b := records + [record], Step(a, record).value;
    assert longer[|records|] == record;
    assert forall i :: 0 <= i < |records| ==> longer[i] == records[i];
    if a.maxRecordBytes != 0 {
      var i :| 0 <= i < |records| && |records[i]| == a.maxRecordBytes;
      assert |longer[i]| == a.maxRecordBytes;
    }
    if a.maxFieldBytes != 0 {
      var i :| 0 <= i < |records| && |Payload(records[i])| == a.maxFieldBytes;
      assert |Payload(longer[i])| == a.maxFieldBytes;
    }
  }

  lemma AtInside(records: seq<Bytes>, kind: Kind)
    ensures forall i, source :: At(records, i, kind, source) ==> 0 <= i < |records|
  {}

  lemma KeysSnoc(records: seq<Bytes>, record: Bytes, kind: Kind, keys: set<seq<Bytes>>, a: Scan)
    requires KeysMean(records, kind, keys) && SourceMeans(records, a)
    ensures KeysMean(records + [record], kind,
                     if KindOf(record) == kind && a.currentSource.Some?
                     then keys + {KeyOf(a.currentSource.value, record)} else keys)
  {
    hide KindOf, At, InSection, KeyOf;
    AtSnoc(records, record);
    var longer := records + [record];
    AtInside(records, kind);
    AtInside(longer, kind);
    var added := KindOf(record) == kind && a.currentSource.Some?;
    if added {
      assert At(longer, |records|, kind, a.currentSource.value);
    }
    forall key: seq<Bytes>
      ensures (exists i, source :: At(longer, i, kind, source) && key == KeyOf(source, longer[i])) <==>
              key in keys || (added && key == KeyOf(a.currentSource.value, record))
    {
      if key in keys {
        var i, source :| At(records, i, kind, source) && key == KeyOf(source, records[i]);
        assert At(longer, i, kind, source) && longer[i] == records[i];
      }
      if i, source :| At(longer, i, kind, source) && key == KeyOf(source, longer[i]) {
        if i < |records| {
          assert At(records, i, kind, source) && longer[i] == records[i];
        } else {
          assert InSection(records, |records|, source);
        }
      }
    }
  }

  ghost predicate NoFaultBefore(records: seq<Bytes>, n: int) {
    forall i, fault :: i < n ==> !Faulty(records, i, fault)
  }

  /** The analyser's verdict on a record list: clean with its meaning, or the first fault. */
  ghost predicate VerdictMeans(records: seq<Bytes>, r: Result<Scan, Fault>) {
    match r
    case Ok(a) => NoFaultBefore(records, |records|) && Means(records, a)
    case Err(fault) => exists i :: Faulty(records, i, fault) && NoFaultBefore(records, i)
  }

  /** For every record list, the scan is what the whole list says it should be. */
  lemma {:induction false} ScanMeaning(records: seq<Bytes>)
    ensures VerdictMeans(records, ScanRecords(records))
  {
    if records == [] {
      assert forall source :: !InSection(records, 0, source);
    } else {
      hide *;
      var init, record := records[..|records| - 1], records[|records| - 1];
      assert records == init + [record];
      ScanMeaning(init);
      VerdictSnoc(init, record);
    }
  }

  lemma VerdictSnoc(records: seq<Bytes>, record: Bytes)
    requires VerdictMeans(records, ScanRecords(records))
    ensures VerdictMeans(records + [record], ScanRecords(records + [record]))
  {
    hide Step, ScanRecords, Means, InSection, At, Faulty;
    ScanSnoc(records, record);
    FaultySnoc(records, record);
    match ScanRecords(records)
    case Err(fault) =>
      var i :| Faulty(records, i, fault) && NoFaultBefore(records, i);
      FaultyInRange(records, i, fault);
      assert Faulty(records + [record], i, fault);
    case Ok(a) =>
      FaultyAtEnd(records, record, a);
      if Step(a, record).Ok? {
        MeansSnoc(records, record, a);
      } else {
        assert Faulty(records + [record], |records|, Step(a, record).error);
      }
  }

  lemma FaultyInRange(records: seq<Bytes>, i: int, fault: Fault)
    requires Faulty(records, i, fault)
    ensures 0 <= i < |records|
  {}

  lemma FaultySnoc(records: seq<Bytes>, record: Bytes)
    ensures forall i, fault :: i < |records| ==>
              (Faulty(records + [record], i, fault) <==> Faulty(records, i, fault))
  {
    hide KindOf, FieldsComplete;
    InSectionSnoc(records, record);
    AtSnoc(records, record);
  }

  lemma FaultyAtEnd(records: seq<Bytes>, record: Bytes, a: Scan)
    requires Means(records, a)
    ensures forall fault :: Faulty(records + [record], |records|, fault) <==> Step(a, record) == Err(fault)
  {
    hide KindOf, Payload, Split, KeyOf, CountsMean, MaximaMean, KeysMean;
    InSectionSnoc(records, record);
    AtSnoc(records, record);
    if a.currentSource.Some? {
      assert InSection(records, |records|, a.currentSource.value);
      assert KindOf(record) == Mcdc ==> At(records + [record], |records|, Mcdc, a.currentSource.value);
    }
  }

  lemma SourceSnoc(records: seq<Bytes>, record: Bytes, a: Scan)
    requires SourceMeans(records, a) && Step(a, record).Ok?
    ensures SourceMeans(records + [record], Step(a, record).value)
  {
    hide KindOf, Payload, KeyOf, FieldsComplete, InSection;
    InSectionSnoc(records, record);
  }

  lemma MeansSnoc(records: seq<Bytes>, record: Bytes, a: Scan)
    requires Means(records, a) && Step(a, record).Ok?
    ensures Means(records + [record], Step(a, record).value)
  {
    hide KindOf, Payload, Split, KeyOf, FieldsComplete, CountsMean, MaximaMean, SourceMeans, KeysMean;
    CountsSnoc(records, record, a);
    MaximaSnoc(records, record, a);
    SourceSnoc(records, record, a);
    KeysSnoc(records, record, Line, a.lineKeys, a);
    KeysSnoc(records, record, Function, a.functionKeys, a);
    KeysSnoc(records, record, Branch, a.branchKeys, a);
    KeysSnoc(records, record, Mcdc, a.mcdcKeys, a);
  }

  // ----- What a key is -----

  /** Line and function keys are the text before the first comma; branch keys the first three fields;
      MC/DC keys the first two of six fields and the last two, without the sense and its count. */
  lemma KeyFields(source: Bytes, a: Bytes, b: Bytes, c: Bytes, d: Bytes, e: Bytes, rest: Bytes)
    requires ',' !in a && ',' !in b && ',' !in c && ',' !in d && ',' !in e
    ensures KeyOf(source, "DA:" + a) == [source, a] && KeyOf(source, "DA:" + (a + [','] + rest)) == [source, a]
    ensures KeyOf(source, "FNL:" + a) == [source, a] && KeyOf(source, "FNL:" + (a + [','] + rest)) == [source, a]
    ensures KeyOf(source, "BRDA:" + (a + [','] + (b + [','] + (c + [','] + rest)))) == [source, a, b, c]
    ensures KeyOf(source, "MCDC:" + (a + [','] + (b + [','] + (c + [','] + (d + [','] + (e + [','] + rest)))))) ==
            [source, a, b, e, rest]
  {
    hide Split, Payload, KindOf;
    OneField(source, a, rest);
    SplitStep(a, ',', b + [','] + (c + [','] + rest), 3);
    SplitStep(b, ',', c + [','] + rest, 2);
    SplitStep(c, ',', rest, 1);
    SplitRest(rest);
    var branch := a + [','] + (b + [','] + (c + [','] + rest));
    Tags("BRDA:", branch);
    assert Split(branch, ',', 3) == [a, b, c, rest];
    assert [a, b, c, rest][..3] == [a, b, c];
    SplitStep(a, ',', b + [','] + (c + [','] + (d + [','] + (e + [','] + rest))), 5);
    SplitStep(b, ',', c + [','] + (d + [','] + (e + [','] + rest)), 4);
    SplitStep(c, ',', d + [','] + (e + [','] + rest), 3);
    SplitStep(d, ',', e + [','] + rest, 2);
    SplitStep(e, ',', rest, 1);
    var condition := a + [','] + (b + [','] + (c + [','] + (d + [','] + (e + [','] + rest))));
    Tags("MCDC:", condition);
    assert Split(condition, ',', 5) == [a, b, c, d, e, rest];
  }

  lemma SplitRest(s: Bytes)
    ensures Split(s, ',', 0) == [s]
  {}

  lemma OneField(source: Bytes, a: Bytes, rest: Bytes)
    requires ',' !in a
    ensures KeyOf(source, "DA:" + a) == [source, a] && KeyOf(source, "DA:" + (a + [','] + rest)) == [source, a]
    ensures KeyOf(source, "FNL:" + a) == [source, a] && KeyOf(source, "FNL:" + (a + [','] + rest)) == [source, a]
  {
    hide Split, Payload, KindOf;
    Tags("DA:", a);
    Tags("DA:", a + [','] + rest);
    Tags("FNL:", a);
    Tags("FNL:", a + [','] + rest);
    SplitWhole(a, ',', 1);
    SplitStep(a, ',', rest, 1);
  }

  /** The kind and the payload of a coverage record. */
  lemma Tags(tag: Bytes, payload: Bytes)
    requires tag == "DA:" || tag == "FNL:" || tag == "BRDA:" || tag == "MCDC:"
    ensures Payload(tag + payload) == payload
    ensures KindOf(tag + payload) ==
            if tag == "DA:" then Line else if tag == "FNL:" then Function else if tag == "BRDA:" then Branch else Mcdc
  {
    var record := tag + payload;
    assert record[0] == tag[0] && record[1] == tag[1];
    match tag[0] {
      case 'D' => PayloadOf("DA", payload); assert "DA" + ":" == tag;
      case 'F' => PayloadOf("FNL", payload); assert "FNL" + ":" == tag;
      case 'B' => PayloadOf("BRDA", payload); assert "BRDA" + ":" == tag;
      case _ => PayloadOf("MCDC", payload); assert "MCDC" + ":" == tag;
    }
    Prefixed(tag, payload);
  }

  lemma Prefixed(tag: Bytes, payload: Bytes)
    requires tag == "DA:" || tag == "FNL:" || tag == "BRDA:" || tag == "MCDC:"
    ensures KindOf(tag + payload) ==
            if tag == "DA:" then Line else if tag == "FNL:" then Function else if tag == "BRDA:" then Branch else Mcdc
  {
    var record := tag + payload;
    assert record[0] == tag[0] && record[..|tag|] == tag;
  }
}
