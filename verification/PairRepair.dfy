/** Tool-pair repair after compression: `_sanitize_tool_pairs` in cos_lib/context_compressor.py. */
module PairRepair {
  import opened Transcript

  const STUB_TEXT := "[Result from earlier conversation \U{2014} see context summary]"

  predicate Answering(m: Message, ids: set<string>) {
    m.role.Tool? && m.resultFor in ids
  }

  /** `ms` without the tool results for `ids`. */
  function Without(ms: seq<Message>, ids: set<string>): seq<Message> {
    if ms == [] then []
    else
      var m := ms[|ms| - 1];
      Without(ms[..|ms| - 1], ids) + if Answering(m, ids) then [] else [m]
  }

  function StubsFor(calls: seq<string>, missing: set<string>): seq<Message> {
    if calls == [] then []
    else
      var c := calls[|calls| - 1];
      StubsFor(calls[..|calls| - 1], missing)
      + if c in missing then [Message(Tool, Text(STUB_TEXT), [], c)] else []
  }

  function Stubbed(m: Message, missing: set<string>): seq<Message> {
    [m] + StubsFor(CallsOf(m), missing)
  }

  /** Each assistant message is followed by one stub per call of its that is `missing`. */
  function WithStubs(ms: seq<Message>, missing: set<string>): seq<Message> {
    if ms == [] then []
    else
      var m := ms[|ms| - 1];
      WithStubs(ms[..|ms| - 1], missing) + Stubbed(m, missing)
  }

  function Orphans(ms: seq<Message>): set<string> {
    ResultIds(ms) - CallIds(ms)
  }

  function Missing(ms: seq<Message>): set<string> {
    CallIds(ms) - ResultIds(ms)
  }

  function Repaired(ms: seq<Message>): seq<Message> {
    WithStubs(Without(ms, Orphans(ms)), Missing(ms))
  }

  method SanitizeToolPairs(input: seq<Message>) returns (ms: seq<Message>)
    ensures ms == Repaired(input)
  {
    ms := input;
    var surviving, results: set<string> := {}, {};
    for i := 0 to |ms|
      invariant surviving == CallIds(ms[..i])
      invariant results == ResultIds(ms[..i])
    {
      assert ms[..i + 1] == ms[..i] + [ms[i]];
      IdsAppend(ms[..i], [ms[i]]);
      SingleIds(ms[i]);
      if ms[i].role.Assistant? {
        surviving := surviving + (set c | c in ms[i].calls && c != "");
      }
      if ms[i].role.Tool? && ms[i].resultFor != "" {
        results := results + {ms[i].resultFor};
      }
    }
    assert ms[..|ms|] == ms;
    var orphaned := results - surviving;
    WithoutNothing(ms, {});
    if orphaned != {} {
      ms := Without(ms, orphaned);
    }
    var missing := surviving - results;
    NoStubs(ms, {});
    if missing != {} {
      ms := AddStubs(ms, missing);
    }
  }

  method AddStubs(ms: seq<Message>, missing: set<string>) returns (patched: seq<Message>)
    ensures patched == WithStubs(ms, missing)
  {
    patched := [];
    for i := 0 to |ms|
      invariant patched == WithStubs(ms[..i], missing)
    {
      OneMoreStubbed(ms, i, missing);
      patched := patched + [ms[i]];
      if ms[i].role.Assistant? {
        patched := AddStubsFor(patched, ms[i].calls, missing);
      }
    }
    assert ms[..|ms|] == ms;
  }

  method AddStubsFor(before: seq<Message>, calls: seq<string>, missing: set<string>) returns (patched: seq<Message>)
    ensures patched == before + StubsFor(calls, missing)
  {
    patched := before;
    for j := 0 to |calls|
      invariant patched == before + StubsFor(calls[..j], missing)
    {
      assert calls[..j + 1][..j] == calls[..j];
      if calls[j] in missing {
        patched := patched + [Message(Tool, Text(STUB_TEXT), [], calls[j])];
      }
    }
    assert calls[..|calls|] == calls;
  }

  lemma OneMoreStubbed(ms: seq<Message>, i: nat, missing: set<string>)
    requires i < |ms|
    ensures WithStubs(ms[..i + 1], missing)
         == WithStubs(ms[..i], missing) + [ms[i]] + StubsFor(CallsOf(ms[i]), missing)
    ensures !ms[i].role.Assistant? ==> StubsFor(CallsOf(ms[i]), missing) == []
  {
    assert ms[..i + 1][..i] == ms[..i];
  }

  // ---- What removing results and adding stubs does ------------------------------------------

  lemma Snoc(ms: seq<Message>)
    requires ms != []
    ensures ms == ms[..|ms| - 1] + [ms[|ms| - 1]]
  {
  }

  lemma {:induction false} WithoutAppend(xs: seq<Message>, ys: seq<Message>, ids: set<string>)
    ensures Without(xs + ys, ids) == Without(xs, ids) + Without(ys, ids)
  {
    if ys == [] {
      assert xs + ys == xs;
    } else {
      assert (xs + ys)[..|xs + ys| - 1] == xs + ys[..|ys| - 1];
      WithoutAppend(xs, ys[..|ys| - 1], ids);
    }
  }

  lemma {:induction false} WithoutNothing(ms: seq<Message>, ids: set<string>)
    requires forall m :: m in ms ==> !Answering(m, ids)
    ensures Without(ms, ids) == ms
  {
    if ms != [] {
      var front, m := ms[..|ms| - 1], ms[|ms| - 1];
      assert m in ms && forall x :: x in front ==> x in ms;
      WithoutNothing(front, ids);
      Snoc(ms);
    }
  }

  lemma {:induction false} WithoutEverything(ms: seq<Message>, ids: set<string>)
    requires forall m :: m in ms ==> Answering(m, ids)
    ensures Without(ms, ids) == []
  {
    if ms != [] {
      WithoutEverything(ms[..|ms| - 1], ids);
      assert ms[|ms| - 1] in ms;
    }
  }

  lemma {:induction false} WithoutIds(ms: seq<Message>, ids: set<string>)
    ensures CallIds(Without(ms, ids)) == CallIds(ms)
    ensures ResultIds(Without(ms, ids)) == ResultIds(ms) - ids
    ensures forall m :: m in Without(ms, ids) <==> m in ms && !Answering(m, ids)
  {
    if ms != [] {
      var front, m := ms[..|ms| - 1], ms[|ms| - 1];
      WithoutIds(front, ids);
      Snoc(ms);
      IdsAppend(front, [m]);
      IdsAppend(Without(front, ids), [m]);
      SingleIds(m);
    }
  }

  lemma {:induction false} NoStubs(ms: seq<Message>, missing: set<string>)
    requires forall m, c :: m in ms && c in CallsOf(m) ==> c !in missing
    ensures WithStubs(ms, missing) == ms
  {
    if ms != [] {
      var front, m := ms[..|ms| - 1], ms[|ms| - 1];
      assert m in ms && forall x :: x in front ==> x in ms;
      NoStubs(front, missing);
      NoStubsFor(CallsOf(m), missing);
      Snoc(ms);
    }
  }

  lemma {:induction false} NoStubsFor(calls: seq<string>, missing: set<string>)
    requires forall c :: c in calls ==> c !in missing
    ensures StubsFor(calls, missing) == []
  {
    if calls != [] {
      NoStubsFor(calls[..|calls| - 1], missing);
      assert calls[|calls| - 1] in calls;
    }
  }

  lemma {:induction false} StubIds(calls: seq<string>, missing: set<string>)
    requires "" !in missing
    ensures CallIds(StubsFor(calls, missing)) == {}
    ensures forall c :: c in ResultIds(StubsFor(calls, missing)) <==> c in calls && c in missing
    ensures forall m :: m in StubsFor(calls, missing) ==> Answering(m, missing)
  {
    if calls != [] {
      var front, c := calls[..|calls| - 1], calls[|calls| - 1];
      StubIds(front, missing);
      var stub := Message(Tool, Text(STUB_TEXT), [], c);
      SingleIds(stub);
      IdsAppend(StubsFor(front, missing), [stub]);
      assert calls == front + [c];
    }
  }

  lemma StubbedIds(m: Message, missing: set<string>)
    requires "" !in missing
    ensures CallIds(Stubbed(m, missing)) == CallIds([m])
    ensures ResultIds(Stubbed(m, missing)) == ResultIds([m]) + CallIds([m]) * missing
  {
    StubIds(CallsOf(m), missing);
    SingleIds(m);
    IdsAppend([m], StubsFor(CallsOf(m), missing));
  }

  lemma {:induction false} WithStubsIds(ms: seq<Message>, missing: set<string>)
    requires "" !in missing
    ensures CallIds(WithStubs(ms, missing)) == CallIds(ms)
    ensures ResultIds(WithStubs(ms, missing)) == ResultIds(ms) + CallIds(ms) * missing
  {
    if ms != [] {
      var front, m := ms[..|ms| - 1], ms[|ms| - 1];
      WithStubsIds(front, missing);
      StubbedIds(m, missing);
      Snoc(ms);
      IdsAppend(front, [m]);
      IdsAppend(WithStubs(front, missing), Stubbed(m, missing));
    }
  }

  /** Taking the stubs out again gives back what they were added to. */
  lemma {:induction false} WithoutStubs(ms: seq<Message>, missing: set<string>)
    requires "" !in missing
    ensures Without(WithStubs(ms, missing), missing) == Without(ms, missing)
  {
    if ms != [] {
      var front, m := ms[..|ms| - 1], ms[|ms| - 1];
      var stubs := StubsFor(CallsOf(m), missing);
      WithoutStubs(front, missing);
      StubIds(CallsOf(m), missing);
      WithoutEverything(stubs, missing);
      WithoutAppend(WithStubs(front, missing), Stubbed(m, missing), missing);
      WithoutAppend([m], stubs, missing);
      Snoc(ms);
      WithoutAppend(front, [m], missing);
    }
  }

  lemma NotAnswering(ms: seq<Message>, ids: set<string>)
    requires forall c :: c in ids ==> c != "" && c !in ResultIds(ms)
    ensures forall m :: m in ms ==> !Answering(m, ids)
  {
    assert forall m :: m in ms && m.role.Tool? && m.resultFor != "" ==> m.resultFor in ResultIds(ms);
  }

  // ---- Main results ---------------------------------------------------------------------------

  /** Repair is exact: afterwards the called and answered ids agree, no call has been lost, and apart
      from the stubs the transcript is the old one without its orphaned results. */
  lemma RepairIsExact(ms: seq<Message>)
    ensures CallIds(Repaired(ms)) == CallIds(ms) == ResultIds(Repaired(ms))
    ensures Without(Repaired(ms), Missing(ms)) == Without(ms, Orphans(ms))
    ensures forall m :: m in ms && (m.role.Tool? ==> m.resultFor in CallIds(ms) || m.resultFor == "")
              ==> m in Repaired(ms)
  {
    var kept := Without(ms, Orphans(ms));
    WithoutIds(ms, Orphans(ms));
    WithStubsIds(kept, Missing(ms));
    WithoutStubs(kept, Missing(ms));
    NotAnswering(ms, Missing(ms));
    WithoutNothing(kept, Missing(ms));
    WithoutIds(Repaired(ms), Missing(ms));
    assert ResultIds(kept) + CallIds(kept) * Missing(ms) == CallIds(ms);
  }

  // ---- How many results each call gets -----------------------------------------------------------

  function Occurrences(ids: seq<string>, c: string): nat {
    if ids == [] then 0 else Occurrences(ids[..|ids| - 1], c) + if ids[|ids| - 1] == c then 1 else 0
  }

  /** How often assistant messages call `c`. */
  function CallCount(ms: seq<Message>, c: string): nat {
    if ms == [] then 0
    else
      var m := ms[|ms| - 1];
      CallCount(ms[..|ms| - 1], c) + if m.role.Assistant? then Occurrences(m.calls, c) else 0
  }

  /** How many tool messages answer `c`. */
  function ResultCount(ms: seq<Message>, c: string): nat {
    if ms == [] then 0
    else
      var m := ms[|ms| - 1];
      ResultCount(ms[..|ms| - 1], c) + if m.role.Tool? && m.resultFor == c then 1 else 0
  }

  lemma {:induction false} ResultCountAppend(xs: seq<Message>, ys: seq<Message>, c: string)
    ensures ResultCount(xs + ys, c) == ResultCount(xs, c) + ResultCount(ys, c)
  {
    if ys == [] {
      assert xs + ys == xs;
    } else {
      assert (xs + ys)[..|xs + ys| - 1] == xs + ys[..|ys| - 1];
      ResultCountAppend(xs, ys[..|ys| - 1], c);
    }
  }

  lemma {:induction false} NoResults(ms: seq<Message>, c: string)
    requires c != "" && c !in ResultIds(ms)
    ensures ResultCount(ms, c) == 0
  {
    if ms != [] {
      var front, m := ms[..|ms| - 1], ms[|ms| - 1];
      Snoc(ms);
      IdsAppend(front, [m]);
      SingleIds(m);
      NoResults(front, c);
    }
  }

  lemma {:induction false} StubCount(calls: seq<string>, missing: set<string>, c: string)
    ensures ResultCount(StubsFor(calls, missing), c) == if c in missing then Occurrences(calls, c) else 0
  {
    if calls != [] {
      var front, last := calls[..|calls| - 1], calls[|calls| - 1];
      var stub := if last in missing then [Message(Tool, Text(STUB_TEXT), [], last)] else [];
      StubCount(front, missing, c);
      ResultCountAppend(StubsFor(front, missing), stub, c);
      assert stub != [] ==> stub[..0] == [];
    }
  }

  lemma {:induction false} StubbedCount(ms: seq<Message>, missing: set<string>, c: string)
    ensures ResultCount(WithStubs(ms, missing), c)
         == ResultCount(ms, c) + if c in missing then CallCount(ms, c) else 0
  {
    if ms != [] {
      var front, m := ms[..|ms| - 1], ms[|ms| - 1];
      var stubs := StubsFor(CallsOf(m), missing);
      StubbedCount(front, missing, c);
      StubCount(CallsOf(m), missing, c);
      ResultCountAppend([m], stubs, c);
      ResultCountAppend(WithStubs(front, missing), [m] + stubs, c);
      assert [m][..0] == [];
    }
  }

  lemma {:induction false} WithoutCount(ms: seq<Message>, ids: set<string>, c: string)
    ensures ResultCount(Without(ms, ids), c) == if c in ids then 0 else ResultCount(ms, c)
    ensures CallCount(Without(ms, ids), c) == CallCount(ms, c)
  {
    if ms != [] {
      var front, m := ms[..|ms| - 1], ms[|ms| - 1];
      WithoutCount(front, ids, c);
      if Answering(m, ids) {
        assert Without(ms, ids) == Without(front, ids);
      } else {
        OneMoreCounted(Without(front, ids), m, c);
      }
    }
  }

  lemma OneMoreCounted(ms: seq<Message>, m: Message, c: string)
    ensures ResultCount(ms + [m], c) == ResultCount(ms, c) + if m.role.Tool? && m.resultFor == c then 1 else 0
    ensures CallCount(ms + [m], c) == CallCount(ms, c) + if m.role.Assistant? then Occurrences(m.calls, c) else 0
  {
    assert (ms + [m])[..|ms|] == ms;
  }

  /** Repair gives a call that nothing answered one result each time it is made, takes all results of
      a call that is not made, and leaves the others as many as they were. */
  lemma ResultsPerCall(ms: seq<Message>, c: string)
    requires c != ""
    ensures ResultCount(Repaired(ms), c) ==
            if c !in CallIds(ms) then 0 else if c !in ResultIds(ms) then CallCount(ms, c) else ResultCount(ms, c)
  {
    var kept := Without(ms, Orphans(ms));
    WithoutCount(ms, Orphans(ms), c);
    StubbedCount(kept, Missing(ms), c);
    if c !in ResultIds(ms) {
      NoResults(ms, c);
    }
  }

  /** Every stub in the repaired transcript sits behind a call of its id, with only stubs between. */
  lemma StubsFollowTheirCall(ms: seq<Message>, i: nat)
    returns (j: nat)
    requires i < |Repaired(ms)| && Answering(Repaired(ms)[i], Missing(ms))
    ensures j < i && Repaired(ms)[j].role.Assistant? && Repaired(ms)[i].resultFor in Repaired(ms)[j].calls
    ensures forall k :: j < k <= i ==> Answering(Repaired(ms)[k], Missing(ms))
    ensures Repaired(ms)[i] == Message(Tool, Text("[Result from earlier conversation \U{2014} see context summary]"),
                                       [], Repaired(ms)[i].resultFor)
  {
    NotAnswering(ms, Missing(ms));
    WithoutIds(ms, Orphans(ms));
    j := StubPosition(Without(ms, Orphans(ms)), Missing(ms), i);
  }

  lemma {:induction false} StubPosition(ms: seq<Message>, missing: set<string>, i: nat)
    returns (j: nat)
    requires "" !in missing && forall m :: m in ms ==> !Answering(m, missing)
    requires i < |WithStubs(ms, missing)| && Answering(WithStubs(ms, missing)[i], missing)
    ensures j < i && WithStubs(ms, missing)[i].resultFor in CallsOf(WithStubs(ms, missing)[j])
    ensures forall k :: j < k <= i ==> Answering(WithStubs(ms, missing)[k], missing)
    ensures var m := WithStubs(ms, missing)[i]; m == Message(Tool, Text(STUB_TEXT), [], m.resultFor)
  {
    var front, m := ms[..|ms| - 1], ms[|ms| - 1];
    if i < |WithStubs(front, missing)| {
      j := StubPosition(front, missing, i);
    } else {
      j := |WithStubs(front, missing)|;
      var stubs := StubsFor(CallsOf(m), missing);
      StubIds(CallsOf(m), missing);
      assert m in ms;
      assert stubs[i - j - 1] in stubs;
      assert stubs[i - j - 1].resultFor in ResultIds(stubs);
      StubTexts(CallsOf(m), missing);
    }
  }

  /** Stubs come in the order of their calls. */
  lemma {:induction false} StubsAppend(xs: seq<string>, ys: seq<string>, missing: set<string>)
    ensures StubsFor(xs + ys, missing) == StubsFor(xs, missing) + StubsFor(ys, missing)
  {
    if ys == [] {
      assert xs + ys == xs;
    } else {
      assert (xs + ys)[..|xs + ys| - 1] == xs + ys[..|ys| - 1];
      StubsAppend(xs, ys[..|ys| - 1], missing);
    }
  }

  lemma {:induction false} StubTexts(calls: seq<string>, missing: set<string>)
    ensures forall m <- StubsFor(calls, missing) :: m == Message(Tool, Text(STUB_TEXT), [], m.resultFor)
  {
    if calls != [] {
      StubTexts(calls[..|calls| - 1], missing);
    }
  }

  /** Repairing a transcript whose ids already agree changes nothing. */
  lemma RepairKeepsAgreement(ms: seq<Message>)
    requires CallIds(ms) == ResultIds(ms)
    ensures Repaired(ms) == ms
  {
    assert Orphans(ms) == {} && Missing(ms) == {};
    WithoutNothing(ms, {});
    NoStubs(ms, {});
  }

  lemma RepairIsIdempotent(ms: seq<Message>)
    ensures Repaired(Repaired(ms)) == Repaired(ms)
  {
    RepairIsExact(ms);
    RepairKeepsAgreement(Repaired(ms));
  }

  /** So repair leaves a transcript alone exactly when its called and answered ids agree. */
  lemma RepairIsIdleExactly(ms: seq<Message>)
    ensures Repaired(ms) == ms <==> CallIds(ms) == ResultIds(ms)
  {
    RepairIsExact(ms);
    if CallIds(ms) == ResultIds(ms) {
      RepairKeepsAgreement(ms);
    }
  }
}
