/**
 The command-line resolver: a stateful scan that gives every argument one resolution, for
 Getopt families, argparse and commands without a parser, under two profiles.
 */
module Resolver {
  import opened Wrappers
  import opened Text
  import opened Sequences
  import opened Ordering

  // ----- Data -----

  datatype Family = SharedGetoptLong | DirectGetoptLong | Argparse | NoParser

  datatype Profile = Default | PosixlyCorrect

  /** An inventory option with the kinds of its source references. */
  datatype OptionEntry = OptionEntry(canonicalName: string, referenceKinds: seq<string>)

  datatype Command = Command(
    family: Family,
    options: seq<OptionEntry>,
    exactOnly: set<string>,
    aliases: Dict,
    positionals: bool)

  datatype Resolution =
    | OptionValue(option: string)
    | UnparsedAfterRequireOrder
    | Ignored
    | RejectedAfterOptionBoundary
    | Positional(positionalsDefined: bool)
    | ExactAlias(target: string)
    | Exact(targets: seq<string>)
    | UniquePrefix(targets: seq<string>, bundle: Option<seq<string>>)
    | AmbiguousPrefix(targets: seq<string>, bundle: Option<seq<string>>)
    | ExactOnlyPrefixRejected(targets: seq<string>)
    | ShortCluster(targets: seq<string>)
    | Unknown(noTargets: Option<seq<string>>, bundle: Option<seq<string>>)

  datatype Record = Record(token: string, resolution: Resolution, missingValue: bool)

  const PROBE_VALUE_OPTIONS: set<string> := {"--config-file", "--rc", "--version-script"}

  predicate IsGetopt(c: Command) {
    c.family == SharedGetoptLong || c.family == DirectGetoptLong
  }

  // ----- Names -----

  predicate StartsWith(s: string, prefix: string) {
    prefix <= s
  }

  function RemoveDashes(name: string): string {
    if StartsWith(name, "--") then name[2..] else name
  }

  /** The options the parser itself declares, as (spelling, canonical name) items. */
  function ParserItem(option: OptionEntry): Option<(string, string)> {
    if "parser_definition" in option.referenceKinds
    then Some((RemoveDashes(option.canonicalName), option.canonicalName)) else None
  }

  function Canonical(c: Command): Dict {
    FromItems(Collect(c.options, ParserItem))
  }

  function FoldItem(item: (string, string)): Option<(string, string)> {
    Some((Lower(item.0), item.1))
  }

  function FoldedCanonical(c: Command): Dict {
    FromItems(Collect(Canonical(c), FoldItem))
  }

  function FoldedAliases(c: Command): Dict {
    FromItems(Collect(c.aliases, FoldItem))
  }

  function Extending(body: string): ((string, string)) -> Option<string> {
    (item: (string, string)) => if StartsWith(item.0, body) then Some(item.1) else None
  }

  /** The targets of all spellings that extend `body`, sorted. */
  function Targets(d: Dict, body: string): seq<string> {
    Sort(Collect(d, Extending(body)), LexLeq)
  }

  /** The alias targets of a cluster of one-letter options, if every letter has one. */
  function Bundle(d: Dict, letters: string): Option<seq<string>> {
    if letters == [] then Some([])
    else
      var first, rest := Get(d, "-" + [letters[0]]), Bundle(d, letters[1..]);
      if first.Some? && first.value != "" && rest.Some? then Some([first.value] + rest.value) else None
  }

  // ----- One token -----

  predicate IsPlain(token: string) {
    !(StartsWith(token, "-") || StartsWith(token, "+")) || token == "-"
  }

  /** The option whose value the next argument will be taken as, if any. */
  function ValueOption(r: Resolution): Option<string> {
    match r
    case ExactAlias(target) => if target in PROBE_VALUE_OPTIONS then Some(target) else None
    case Exact(ts) => SingleValue(ts)
    case UniquePrefix(ts, _) => SingleValue(ts)
    case ExactOnlyPrefixRejected(ts) => SingleValue(ts)
    case _ => None
  }

  function SingleValue(targets: seq<string>): Option<string> {
    if |targets| == 1 && targets[0] in PROBE_VALUE_OPTIONS then Some(targets[0]) else None
  }

  function ByCount(targets: seq<string>, bundle: Option<seq<string>>): Resolution {
    if |targets| == 1 then UniquePrefix(targets, bundle)
    else if targets != [] then AmbiguousPrefix(targets, bundle)
    else Unknown(Some(targets), bundle)
  }

  function ArgparseOption(c: Command, token: string): Resolution {
    if StartsWith(token, "+") then Positional(c.positionals)
    else if Get(c.aliases, token).Some? then ExactAlias(Get(c.aliases, token).value)
    else if StartsWith(token, "--") then
      var body := token[2..];
      var exact := Get(Canonical(c), body);
      if exact.Some? then Exact([exact.value]) else ByCount(Targets(Canonical(c), body), None)
    else
      var bundle := Bundle(c.aliases, if token == [] then [] else token[1..]);
      if bundle.Some? then ShortCluster(bundle.value) else Unknown(None, None)
  }

  function GetoptBody(token: string): string {
    Lower(if StartsWith(token, "--") then token[2..] else if token == [] then [] else token[1..])
  }

  function GetoptBundle(c: Command, token: string): Option<seq<string>> {
    if StartsWith(token, "-") && !StartsWith(token, "--") && |token| > 2
    then Bundle(FoldedAliases(c), Lower(token[1..])) else None
  }

  function GetoptOption(c: Command, profile: Profile, token: string): Resolution {
    var posix := profile == PosixlyCorrect;
    var aliased := Get(FoldedAliases(c), Lower(token));
    var exact := Get(FoldedCanonical(c), GetoptBody(token));
    var targets := Targets(FoldedCanonical(c), GetoptBody(token));
    if StartsWith(token, "+") && posix then Positional(c.positionals)
    else if aliased.Some? then ExactAlias(aliased.value)
    else if exact.Some? then Exact([exact.value])
    else if posix then Unknown(Some([]), GetoptBundle(c, token))
    else if |targets| == 1 && targets[0] in c.exactOnly then ExactOnlyPrefixRejected(targets)
    else ByCount(targets, GetoptBundle(c, token))
  }

  // ----- The scan -----

  datatype State = State(pending: Option<string>, stopped: bool, positionalSeen: bool, optionAfter: bool)

  const START := State(None, false, false, false)

  function Resolve(c: Command, profile: Profile, st: State, token: string): Resolution {
    if st.pending.Some? then OptionValue(st.pending.value)
    else if IsGetopt(c) && st.stopped then UnparsedAfterRequireOrder
    else if c.family == NoParser then Ignored
    else if IsPlain(token) then
      if c.family == Argparse && st.optionAfter then RejectedAfterOptionBoundary else Positional(c.positionals)
    else if c.family == Argparse then ArgparseOption(c, token)
    else GetoptOption(c, profile, token)
  }

  function Next(c: Command, profile: Profile, st: State, token: string): State {
    if st.pending.Some? then st.(pending := None)
    else
      var r := Resolve(c, profile, st, token);
      var optionShaped := !IsPlain(token) && !StartsWith(token, "+");
      State(ValueOption(r),
            st.stopped || (IsGetopt(c) && profile == PosixlyCorrect && r.Positional?),
            st.positionalSeen || (c.family == Argparse && r.Positional?),
            st.optionAfter || (c.family == Argparse && optionShaped && st.positionalSeen))
  }

  /** The state in which argument `i` is looked at. */
  function StateAt(c: Command, profile: Profile, arguments: seq<string>, i: nat): State
    requires i <= |arguments|
  {
    if i == 0 then START
    else Next(c, profile, StateAt(c, profile, arguments, i - 1), arguments[i - 1])
  }

  function ResolutionAt(c: Command, profile: Profile, arguments: seq<string>, i: nat): Resolution
    requires i < |arguments|
  {
    Resolve(c, profile, StateAt(c, profile, arguments, i), arguments[i])
  }

  predicate StillPending(c: Command, profile: Profile, arguments: seq<string>) {
    StateAt(c, profile, arguments, |arguments|).pending.Some?
  }

  function Signature(c: Command, arguments: seq<string>, profile: Profile): (records: seq<Record>)
    ensures |records| == |arguments|
  {
    seq(|arguments|, i requires 0 <= i < |arguments| =>
      Record(arguments[i], ResolutionAt(c, profile, arguments, i),
             i == |arguments| - 1 && StillPending(c, profile, arguments)))
  }

  /** `case_resolution_signature`: the loop with its four pieces of mutable state. */
  method CaseResolutionSignature(c: Command, arguments: seq<string>, profile: Profile)
    returns (signature: seq<Record>)
    ensures signature == Signature(c, arguments, profile)
  {
    hide StateAt, GetoptOption, ArgparseOption, ValueOption, IsPlain, StartsWith;
    signature := [];
    var pending: Option<string> := None;
    var stopped, positionalSeen, optionAfter := false, false, false;
    StartState(c, profile, arguments);
    for index := 0 to |arguments|
      invariant StateAt(c, profile, arguments, index) == State(pending, stopped, positionalSeen, optionAfter)
      invariant |signature| == index
      invariant forall i :: 0 <= i < index ==>
                  signature[i] == Record(arguments[i], ResolutionAt(c, profile, arguments, i), false)
    {
      var token := arguments[index];
      NextState(c, profile, arguments, index);
      var resolution;
      if pending.Some? {
        resolution := OptionValue(pending.value);
        pending := None;
      } else if IsGetopt(c) && stopped {
        resolution := UnparsedAfterRequireOrder;
        pending := ValueOption(resolution);
      } else if c.family == NoParser {
        resolution := Ignored;
        pending := ValueOption(resolution);
      } else if IsPlain(token) {
        if c.family == Argparse && optionAfter {
          resolution := RejectedAfterOptionBoundary;
        } else {
          resolution := Positional(c.positionals);
          if c.family == Argparse {
            positionalSeen := true;
          } else if profile == PosixlyCorrect {
            stopped := true;
          }
        }
        pending := ValueOption(resolution);
      } else if c.family == Argparse {
        resolution := ArgparseOption(c, token);
        ArgparseNotPositional(c, token);
        if StartsWith(token, "+") {
          positionalSeen := true;
        } else if positionalSeen {
          optionAfter := true;
        }
        pending := ValueOption(resolution);
      } else {
        resolution := GetoptOption(c, profile, token);
        GetoptNotPositional(c, profile, token);
        if profile == PosixlyCorrect && StartsWith(token, "+") {
          stopped := true;
        }
        pending := ValueOption(resolution);
      }
      signature := signature + [Record(token, resolution, false)];
    }
    if pending.Some? {
      assert signature != [];
      signature := signature[|signature| - 1 := signature[|signature| - 1].(missingValue := true)];
    }
  }

  lemma StartState(c: Command, profile: Profile, arguments: seq<string>)
    ensures StateAt(c, profile, arguments, 0) == START
  {}

  lemma NextState(c: Command, profile: Profile, arguments: seq<string>, i: nat)
    requires i < |arguments|
    ensures StateAt(c, profile, arguments, i + 1) ==
            Next(c, profile, StateAt(c, profile, arguments, i), arguments[i])
  {}

  lemma ArgparseNotPositional(c: Command, token: string)
    ensures ArgparseOption(c, token).Positional? <==> StartsWith(token, "+")
  {
    hide Targets, Canonical, Bundle, Get, StartsWith;
  }

  lemma GetoptNotPositional(c: Command, profile: Profile, token: string)
    ensures GetoptOption(c, profile, token).Positional? <==> StartsWith(token, "+") && profile == PosixlyCorrect
  {
    hide Targets, FoldedCanonical, FoldedAliases, GetoptBundle, GetoptBody, Get, StartsWith;
  }
}
