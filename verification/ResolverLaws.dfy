/** Laws of the command-line resolver over whole runs. */
module ResolverLaws {
  import opened Wrappers
  import opened Text
  import opened Sequences
  import opened Resolver

  // ----- One record per argument; option values -----

  /** Records follow the arguments; a record is an option value exactly when the record before
      it resolved to a single value-taking option; only the last record can miss its value,
      and does so exactly when it resolved to such an option itself. */
  lemma RecordsFollowArguments(c: Command, arguments: seq<string>, profile: Profile, i: nat)
    requires i < |arguments|
    ensures var sig := Signature(c, arguments, profile);
            && |sig| == |arguments|
            && sig[i].token == arguments[i]
            && (sig[i].resolution.OptionValue? <==> i > 0 && ValueOption(sig[i - 1].resolution).Some?)
            && (sig[i].resolution.OptionValue? ==>
                  ValueOption(sig[i - 1].resolution) == Some(sig[i].resolution.option))
            && (sig[i].missingValue <==> i == |arguments| - 1 && ValueOption(sig[i].resolution).Some?)
  {
    hide Resolve, Next, StateAt, ValueOption;
    var sig := Signature(c, arguments, profile);
    assert sig[i].resolution == ResolutionAt(c, profile, arguments, i);
    NextState(c, profile, arguments, i);
    PendingNext(c, profile, StateAt(c, profile, arguments, i), arguments[i]);
    if i > 0 {
      assert sig[i - 1].resolution == ResolutionAt(c, profile, arguments, i - 1);
      NextState(c, profile, arguments, i - 1);
      PendingNext(c, profile, StateAt(c, profile, arguments, i - 1), arguments[i - 1]);
    } else {
      StartState(c, profile, arguments);
    }
  }

  /** A value is pending after an argument exactly when its resolution takes one. */
  lemma PendingNext(c: Command, profile: Profile, st: State, token: string)
    ensures Next(c, profile, st, token).pending == ValueOption(Resolve(c, profile, st, token))
    ensures Resolve(c, profile, st, token).OptionValue? <==> st.pending.Some?
    ensures st.pending.Some? ==> Resolve(c, profile, st, token) == OptionValue(st.pending.value)
  {
    hide GetoptOption, ArgparseOption, IsPlain, StartsWith;
    NeverValue(c, profile, st, token);
  }

  /** Option shapes never resolve to a value: only a pending option makes one. */
  lemma NeverValue(c: Command, profile: Profile, st: State, token: string)
    ensures Resolve(c, profile, st, token).OptionValue? <==> st.pending.Some?
  {
    hide Targets, Canonical, FoldedCanonical, FoldedAliases, Bundle, GetoptBundle, GetoptBody, Get;
  }

  /** Values are opaque: replacing one by any string changes that record's token and nothing else. */
  lemma ValuesAreOpaque(c: Command, arguments: seq<string>, profile: Profile, i: nat, token: string)
    requires i < |arguments| && Signature(c, arguments, profile)[i].resolution.OptionValue?
    ensures var sig := Signature(c, arguments, profile);
            Signature(c, arguments[i := token], profile) == sig[i := sig[i].(token := token)]
  {
    hide Resolve, StateAt;
    var changed := arguments[i := token];
    NeverValue(c, profile, StateAt(c, profile, arguments, i), arguments[i]);
    forall k: nat | k <= |arguments|
      ensures StateAt(c, profile, changed, k) == StateAt(c, profile, arguments, k)
    {
      SameStates(c, profile, arguments, i, token, k);
    }
    forall k | 0 <= k < |arguments|
      ensures ResolutionAt(c, profile, changed, k) == ResolutionAt(c, profile, arguments, k)
    {
      assert StateAt(c, profile, changed, k) == StateAt(c, profile, arguments, k);
      if k == i {
        ValueIgnoresToken(c, profile, StateAt(c, profile, arguments, i), arguments[i], token);
      }
    }
    var sig, sig' := Signature(c, arguments, profile), Signature(c, changed, profile);
    assert forall k :: 0 <= k < |sig| ==> sig'[k] == sig[i := sig[i].(token := token)][k];
  }

  lemma ValueIgnoresToken(c: Command, profile: Profile, st: State, t: string, t': string)
    requires st.pending.Some?
    ensures Resolve(c, profile, st, t) == Resolve(c, profile, st, t')
    ensures Next(c, profile, st, t) == Next(c, profile, st, t')
  {}

  lemma {:induction false} SameStates(c: Command, profile: Profile, arguments: seq<string>,
                                      i: nat, token: string, k: nat)
    requires i < |arguments| && k <= |arguments| && StateAt(c, profile, arguments, i).pending.Some?
    ensures StateAt(c, profile, arguments[i := token], k) == StateAt(c, profile, arguments, k)
  {
    hide Next;
    if k > 0 {
      SameStates(c, profile, arguments, i, token, k - 1);
      ValueIgnoresTokenAt(c, profile, arguments, i, token);
    }
  }

  lemma ValueIgnoresTokenAt(c: Command, profile: Profile, arguments: seq<string>, i: nat, token: string)
    requires i < |arguments| && StateAt(c, profile, arguments, i).pending.Some?
    ensures Next(c, profile, StateAt(c, profile, arguments, i), token) ==
            Next(c, profile, StateAt(c, profile, arguments, i), arguments[i])
  {
    hide StateAt;
  }

  // ----- Case folding -----

  /** Equal up to ASCII case, argument by argument. */
  ghost predicate SameFolded(a: seq<string>, b: seq<string>) {
    |a| == |b| && forall i :: 0 <= i < |a| ==> Lower(a[i]) == Lower(b[i])
  }

  lemma FoldedShape(t: string, t': string)
    requires Lower(t) == Lower(t')
    ensures |t| == |t'|
    ensures forall p :: p in {"-", "+", "--"} ==> (StartsWith(t, p) <==> StartsWith(t', p))
    ensures t == "-" <==> t' == "-"
    ensures forall k :: 0 <= k <= |t| ==> Lower(t[k..]) == Lower(t'[k..])
  {
    assert forall i :: 0 <= i < |t| ==> LowerChar(t[i]) == LowerChar(t'[i]) by {
      forall i | 0 <= i < |t| ensures LowerChar(t[i]) == LowerChar(t'[i]) {
        assert Lower(t)[i] == Lower(t')[i];
      }
    }
    assert forall i :: 0 <= i < |t| ==> (t[i] == '-' <==> t'[i] == '-') && (t[i] == '+' <==> t'[i] == '+');
    forall k | 0 <= k <= |t| ensures Lower(t[k..]) == Lower(t'[k..]) {
      assert forall i :: 0 <= i < |t[k..]| ==> LowerChar(t[k..][i]) == LowerChar(t'[k..][i]);
    }
  }

  lemma FoldedResolve(c: Command, profile: Profile, st: State, t: string, t': string)
    requires IsGetopt(c) && Lower(t) == Lower(t')
    ensures Resolve(c, profile, st, t) == Resolve(c, profile, st, t')
    ensures Next(c, profile, st, t) == Next(c, profile, st, t')
  {
    hide Targets, FoldedCanonical, FoldedAliases, Bundle, Get, Lower, StartsWith;
    FoldedShape(t, t');
    assert "-" in {"-", "+", "--"} && "+" in {"-", "+", "--"} && "--" in {"-", "+", "--"};
    EmptyStarts(t);
    EmptyStarts(t');
  }

  lemma EmptyStarts(t: string)
    ensures StartsWith(t, "--") ==> |t| >= 2
  {}

  lemma {:induction false} FoldedStates(c: Command, profile: Profile, a: seq<string>, b: seq<string>, k: nat)
    requires IsGetopt(c) && SameFolded(a, b) && k <= |a|
    ensures StateAt(c, profile, a, k) == StateAt(c, profile, b, k)
  {
    hide Next, Lower;
    if k > 0 {
      FoldedStates(c, profile, a, b, k - 1);
      FoldedResolve(c, profile, StateAt(c, profile, a, k - 1), a[k - 1], b[k - 1]);
    }
  }

  /** For Getopt families in either profile, argument lists equal up to case give signatures
      equal in everything but the token text, through the whole run. */
  lemma CaseInsensitive(c: Command, profile: Profile, a: seq<string>, b: seq<string>)
    requires IsGetopt(c) && SameFolded(a, b)
    ensures var sa, sb := Signature(c, a, profile), Signature(c, b, profile);
            |sa| == |sb| && forall i :: 0 <= i < |sa| ==> sa[i] == sb[i].(token := a[i])
  {
    hide Resolve, StateAt, Lower;
    forall i | 0 <= i < |a| ensures ResolutionAt(c, profile, a, i) == ResolutionAt(c, profile, b, i) {
      FoldedStates(c, profile, a, b, i);
      FoldedResolve(c, profile, StateAt(c, profile, a, i), a[i], b[i]);
    }
    FoldedStates(c, profile, a, b, |a|);
  }

  // ----- POSIX: options before operands -----

  /** Once stopped, a Getopt scan stays stopped with nothing pending. */
  lemma StoppedIs(c: Command, arguments: seq<string>, i: nat)
    requires IsGetopt(c) && i < |arguments|
    ensures var st, st' := StateAt(c, PosixlyCorrect, arguments, i), StateAt(c, PosixlyCorrect, arguments, i + 1);
            var r := ResolutionAt(c, PosixlyCorrect, arguments, i);
            && (st'.stopped <==> st.stopped || r.Positional?)
            && (st.stopped && st.pending.None? ==> r == UnparsedAfterRequireOrder && st'.pending.None?)
            && (r == UnparsedAfterRequireOrder ==> st.stopped)
            && (r.Positional? ==> st'.pending.None? && !st.stopped)
  {
    hide Targets, FoldedCanonical, FoldedAliases, GetoptBundle, GetoptBody, Get, StartsWith;
    NextState(c, PosixlyCorrect, arguments, i);
  }

  lemma {:induction false} StoppedMeans(c: Command, arguments: seq<string>, i: nat)
    requires IsGetopt(c) && i <= |arguments|
    ensures var st := StateAt(c, PosixlyCorrect, arguments, i);
            && (st.stopped <==> exists p :: 0 <= p < i && ResolutionAt(c, PosixlyCorrect, arguments, p).Positional?)
            && (st.stopped ==> st.pending.None?)
  {
    hide ResolutionAt, StateAt;
    if i == 0 {
      StartState(c, PosixlyCorrect, arguments);
    } else {
      StoppedMeans(c, arguments, i - 1);
      StoppedIs(c, arguments, i - 1);
    }
  }

  /** Guideline 9 of section 12.2 of POSIX.1-2017 (XBD) as the resolver keeps it: a record is
      unparsed exactly when some earlier record is positional, so every run is options and
      values, then at most one positional, then only unparsed tokens. */
  lemma OptionsPrecedeOperands(c: Command, arguments: seq<string>, i: nat)
    requires IsGetopt(c) && i < |arguments|
    ensures var sig := Signature(c, arguments, PosixlyCorrect);
            sig[i].resolution == UnparsedAfterRequireOrder <==>
              exists p :: 0 <= p < i && sig[p].resolution.Positional?
  {
    hide ResolutionAt, StateAt;
    StoppedMeans(c, arguments, i);
    StoppedIs(c, arguments, i);
    var sig := Signature(c, arguments, PosixlyCorrect);
    assert forall p :: 0 <= p < i ==> sig[p].resolution == ResolutionAt(c, PosixlyCorrect, arguments, p);
  }

  lemma AtMostOnePositional(c: Command, arguments: seq<string>, i: nat, j: nat)
    requires IsGetopt(c) && i < j < |arguments|
    requires Signature(c, arguments, PosixlyCorrect)[i].resolution.Positional?
    ensures Signature(c, arguments, PosixlyCorrect)[j].resolution == UnparsedAfterRequireOrder
  {
    hide ResolutionAt, Signature;
    OptionsPrecedeOperands(c, arguments, j);
  }

  /** A POSIX resolution the default profile would give too: not unparsed, not an operand
      written with `+`, and not an unknown option that some spelling extends. */
  predicate Harmless(c: Command, token: string, r: Resolution) {
    && r != UnparsedAfterRequireOrder
    && (r.Positional? ==> IsPlain(token))
    && (r.Unknown? ==> Targets(FoldedCanonical(c), GetoptBody(token)) == [])
  }

  lemma ProfilesStep(c: Command, st: State, token: string)
    requires IsGetopt(c)
    ensures var r, st' := Resolve(c, PosixlyCorrect, st, token), st.(stopped := false);
            && (Resolve(c, Default, st', token) == r <==> Harmless(c, token, r))
            && (Harmless(c, token, r) ==>
                  Next(c, Default, st', token) == Next(c, PosixlyCorrect, st, token).(stopped := false))
  {
    hide Targets, FoldedCanonical, FoldedAliases, GetoptBundle, GetoptBody, Get, StartsWith;
    PlusIsNotPlain(token);
  }

  lemma PlusIsNotPlain(token: string)
    ensures StartsWith(token, "+") ==> !IsPlain(token)
  {
    assert StartsWith(token, "+") ==> token[0] == '+';
  }

  ghost predicate HarmlessBefore(c: Command, arguments: seq<string>, k: nat) {
    k <= |arguments| &&
    forall i :: 0 <= i < k ==> Harmless(c, arguments[i], ResolutionAt(c, PosixlyCorrect, arguments, i))
  }

  lemma {:induction false} ProfilesStates(c: Command, arguments: seq<string>, k: nat)
    requires IsGetopt(c) && HarmlessBefore(c, arguments, k)
    ensures StateAt(c, Default, arguments, k) == StateAt(c, PosixlyCorrect, arguments, k).(stopped := false)
  {
    hide Resolve, Next, Harmless;
    if k > 0 {
      ProfilesStates(c, arguments, k - 1);
      ProfilesStep(c, StateAt(c, PosixlyCorrect, arguments, k - 1), arguments[k - 1]);
      assert Harmless(c, arguments[k - 1], ResolutionAt(c, PosixlyCorrect, arguments, k - 1));
    }
  }

  /** Up to the first harmful argument the two profiles resolve alike, and there they differ. */
  lemma ProfilesResolve(c: Command, arguments: seq<string>, k: nat)
    requires IsGetopt(c) && k < |arguments| && HarmlessBefore(c, arguments, k)
    ensures var r := ResolutionAt(c, PosixlyCorrect, arguments, k);
            ResolutionAt(c, Default, arguments, k) == r <==> Harmless(c, arguments[k], r)
  {
    hide Resolve, Next, Harmless, StateAt;
    ProfilesStates(c, arguments, k);
    ProfilesStep(c, StateAt(c, PosixlyCorrect, arguments, k), arguments[k]);
  }

  lemma {:induction false} HarmlessIfEqual(c: Command, arguments: seq<string>, k: nat)
    requires IsGetopt(c) && k <= |arguments|
    requires forall i :: 0 <= i < k ==>
               ResolutionAt(c, Default, arguments, i) == ResolutionAt(c, PosixlyCorrect, arguments, i)
    ensures HarmlessBefore(c, arguments, k)
  {
    hide ResolutionAt, Harmless;
    if k > 0 {
      HarmlessIfEqual(c, arguments, k - 1);
      ProfilesResolve(c, arguments, k - 1);
    }
  }

  /** The two profiles give the identical signature exactly when every POSIX record is harmless;
      in particular when there is neither an unknown option nor an operand. */
  lemma PosixRunIsDefaultRun(c: Command, arguments: seq<string>)
    requires IsGetopt(c)
    ensures var sig := Signature(c, arguments, PosixlyCorrect);
            && (Signature(c, arguments, Default) == sig <==>
                  forall i :: 0 <= i < |sig| ==> Harmless(c, arguments[i], sig[i].resolution))
            && ((forall i :: 0 <= i < |sig| ==> !sig[i].resolution.Unknown? && !sig[i].resolution.Positional?) ==>
                  Signature(c, arguments, Default) == sig)
  {
    hide ResolutionAt, StateAt;
    var sig, def := Signature(c, arguments, PosixlyCorrect), Signature(c, arguments, Default);
    assert forall i :: 0 <= i < |arguments| ==> sig[i].resolution == ResolutionAt(c, PosixlyCorrect, arguments, i);
    assert forall i :: 0 <= i < |arguments| ==> def[i].resolution == ResolutionAt(c, Default, arguments, i);
    if HarmlessBefore(c, arguments, |arguments|) {
      forall i | 0 <= i < |arguments|
        ensures ResolutionAt(c, Default, arguments, i) == ResolutionAt(c, PosixlyCorrect, arguments, i)
      {
        assert Harmless(c, arguments[i], ResolutionAt(c, PosixlyCorrect, arguments, i));
        ProfilesResolve(c, arguments, i);
      }
      ProfilesStates(c, arguments, |arguments|);
    } else if def == sig {
      HarmlessIfEqual(c, arguments, |arguments|);
    }
    forall i | 0 <= i < |arguments| && !sig[i].resolution.Unknown? && !sig[i].resolution.Positional?
      ensures sig[i].resolution == UnparsedAfterRequireOrder || Harmless(c, arguments[i], sig[i].resolution)
    {}
    if forall i :: 0 <= i < |sig| ==> !sig[i].resolution.Positional? {
      forall i: nat | i < |arguments| ensures sig[i].resolution != UnparsedAfterRequireOrder {
        OptionsPrecedeOperands(c, arguments, i);
      }
    }
  }

  // ----- Default profile: positionals do not matter to the rest -----

  lemma PositionalLeavesState(c: Command, st: State, token: string)
    requires IsGetopt(c) && Resolve(c, Default, st, token).Positional?
    ensures Next(c, Default, st, token) == st
  {
    hide Targets, FoldedCanonical, FoldedAliases, GetoptBundle, GetoptBody, Get;
  }

  function Without<T>(s: seq<T>, i: nat): seq<T>
    requires i < |s|
  {
    s[..i] + s[i + 1..]
  }

  lemma {:induction false} DeletionStates(c: Command, arguments: seq<string>, i: nat, k: nat)
    requires IsGetopt(c) && i < |arguments| && ResolutionAt(c, Default, arguments, i).Positional?
    requires k < |arguments|
    ensures StateAt(c, Default, Without(arguments, i), k) ==
            StateAt(c, Default, arguments, if k <= i then k else k + 1)
  {
    hide Next, Resolve;
    var shorter := Without(arguments, i);
    if k > 0 {
      DeletionStates(c, arguments, i, k - 1);
      if k <= i {
        assert shorter[k - 1] == arguments[k - 1];
      } else {
        assert shorter[k - 1] == arguments[k];
      }
    }
    if k >= i {
      NextState(c, Default, arguments, i);
      PositionalLeavesState(c, StateAt(c, Default, arguments, i), arguments[i]);
    }
  }

  /** In the default profile of a Getopt family, deleting a positional argument removes its
      own record and changes no other. */
  lemma DeletingPositional(c: Command, arguments: seq<string>, i: nat)
    requires IsGetopt(c) && i < |arguments|
    requires Signature(c, arguments, Default)[i].resolution.Positional?
    ensures Signature(c, Without(arguments, i), Default) == Without(Signature(c, arguments, Default), i)
  {
    hide Resolve, StateAt;
    var shorter, sig := Without(arguments, i), Signature(c, arguments, Default);
    assert sig[i].resolution == ResolutionAt(c, Default, arguments, i);
    forall k | 0 <= k < |shorter|
      ensures ResolutionAt(c, Default, shorter, k) ==
              ResolutionAt(c, Default, arguments, if k < i then k else k + 1)
    {
      DeletionStates(c, arguments, i, k);
      if k == i {
        NextState(c, Default, arguments, i);
        PositionalLeavesState(c, StateAt(c, Default, arguments, i), arguments[i]);
      }
    }
    DeletionPending(c, arguments, i);
    var sig' := Signature(c, shorter, Default);
    assert |sig'| == |sig| - 1;
    forall k | 0 <= k < |shorter| ensures sig'[k] == Without(sig, i)[k] {
      assert sig'[k].resolution == ResolutionAt(c, Default, shorter, k);
    }
  }

  /** The pending mark stays on the same record: a positional leaves nothing pending behind it. */
  lemma DeletionPending(c: Command, arguments: seq<string>, i: nat)
    requires IsGetopt(c) && i < |arguments| && ResolutionAt(c, Default, arguments, i).Positional?
    ensures StillPending(c, Default, Without(arguments, i)) <==> StillPending(c, Default, arguments)
    ensures i == |arguments| - 1 ==> !StillPending(c, Default, arguments)
  {
    hide Resolve, Next;
    DeletionStates(c, arguments, i, |arguments| - 1);
    NextState(c, Default, arguments, i);
    PositionalLeavesState(c, StateAt(c, Default, arguments, i), arguments[i]);
    NeverValue(c, Default, StateAt(c, Default, arguments, i), arguments[i]);
  }

  // ----- Argparse and no parser -----

  lemma {:induction false} ProfileFreeStates(c: Command, arguments: seq<string>, k: nat)
    requires !IsGetopt(c) && k <= |arguments|
    ensures StateAt(c, Default, arguments, k) == StateAt(c, PosixlyCorrect, arguments, k)
  {
    hide ArgparseOption, IsPlain, StartsWith;
    if k > 0 {
      ProfileFreeStates(c, arguments, k - 1);
    }
  }

  /** Commands outside the Getopt families resolve alike in both profiles. */
  lemma ProfileFree(c: Command, arguments: seq<string>)
    requires !IsGetopt(c)
    ensures Signature(c, arguments, Default) == Signature(c, arguments, PosixlyCorrect)
  {
    hide StateAt, ArgparseOption, IsPlain, StartsWith;
    forall i: nat | i <= |arguments|
      ensures StateAt(c, Default, arguments, i) == StateAt(c, PosixlyCorrect, arguments, i)
    {
      ProfileFreeStates(c, arguments, i);
    }
    assert forall i :: 0 <= i < |arguments| ==>
      ResolutionAt(c, Default, arguments, i) == ResolutionAt(c, PosixlyCorrect, arguments, i);
  }

  /** Argument `q` is option-shaped, is not an option's value, and follows a positional. */
  ghost predicate OptionAfterPositional(c: Command, arguments: seq<string>, profile: Profile, q: nat) {
    && q < |arguments|
    && !IsPlain(arguments[q]) && !StartsWith(arguments[q], "+")
    && !ResolutionAt(c, profile, arguments, q).OptionValue?
    && exists p :: 0 <= p < q && ResolutionAt(c, profile, arguments, p).Positional?
  }

  lemma ArgparseStep(c: Command, profile: Profile, st: State, token: string)
    requires c.family == Argparse
    ensures var r, st' := Resolve(c, profile, st, token), Next(c, profile, st, token);
            && (r.OptionValue? <==> st.pending.Some?)
            && (st'.positionalSeen <==> st.positionalSeen || r.Positional?)
            && (st'.optionAfter <==>
                  st.optionAfter
                  || (!r.OptionValue? && !IsPlain(token) && !StartsWith(token, "+") && st.positionalSeen))
            && (r == RejectedAfterOptionBoundary <==> !r.OptionValue? && IsPlain(token) && st.optionAfter)
  {
    hide Targets, Canonical, Bundle, Get, StartsWith;
  }

  lemma {:induction false} ArgparseStates(c: Command, arguments: seq<string>, profile: Profile, i: nat)
    requires c.family == Argparse && i <= |arguments|
    ensures var st := StateAt(c, profile, arguments, i);
            && (st.positionalSeen <==> exists p :: 0 <= p < i && ResolutionAt(c, profile, arguments, p).Positional?)
            && (st.optionAfter <==> exists q: nat :: q < i && OptionAfterPositional(c, arguments, profile, q))
  {
    hide Resolve, Next, IsPlain, StartsWith;
    if i > 0 {
      ArgparseStates(c, arguments, profile, i - 1);
      ArgparseStep(c, profile, StateAt(c, profile, arguments, i - 1), arguments[i - 1]);
      assert ResolutionAt(c, profile, arguments, i - 1) ==
             Resolve(c, profile, StateAt(c, profile, arguments, i - 1), arguments[i - 1]);
      assert OptionAfterPositional(c, arguments, profile, i - 1) <==>
        (StateAt(c, profile, arguments, i - 1).positionalSeen && !IsPlain(arguments[i - 1])
         && !StartsWith(arguments[i - 1], "+") && !ResolutionAt(c, profile, arguments, i - 1).OptionValue?);
    }
  }

  /** For argparse, exactly the plain operands that follow an option-shaped token that follows a
      positional are rejected; values and `+` operands never are. */
  lemma RejectedExactlyAfterBoundary(c: Command, arguments: seq<string>, profile: Profile, i: nat)
    requires c.family == Argparse && i < |arguments|
    ensures var r := Signature(c, arguments, profile)[i].resolution;
            r == RejectedAfterOptionBoundary <==>
              && !r.OptionValue? && IsPlain(arguments[i])
              && exists q: nat :: q < i && OptionAfterPositional(c, arguments, profile, q)
  {
    hide Resolve, Next, IsPlain, StartsWith, StateAt, OptionAfterPositional;
    ArgparseStates(c, arguments, profile, i);
    ArgparseStep(c, profile, StateAt(c, profile, arguments, i), arguments[i]);
    assert Signature(c, arguments, profile)[i].resolution == ResolutionAt(c, profile, arguments, i);
  }
}
