/** Labelling the calls of a batch with the action that emitted each of them, by position alone. */
module CallAnnotation {
  import opened Wrappers
  import opened CallCompiler
  import opened AllowanceMachine

  datatype Label = Label(actionIndex: int, actionType: string)

  /** The name a plan gives the action: one a kind. */
  function TypeOf(a: Action): (r: string)
    ensures a.PoolOperation? ==>
      && (r == "supply" <==> a.op == Supply) && (r == "withdraw" <==> a.op == Withdraw)
      && (r == "borrow" <==> a.op == Borrow) && (r == "repay" <==> a.op == Repay)
    ensures !a.UnknownAction? ==> (r == "approve" <==> a.ApproveAction?) && (r == "swap" <==> a.SwapAction?)
    ensures !a.UnknownAction? ==> (r == "transfer" <==> a.TransferAction?) && (r == "castVote" <==> a.VoteAction?)
  {
    match a
    case ApproveAction(_, _, _) => "approve"
    case PoolOperation(op, _, _) =>
      (match op case Supply => "supply" case Withdraw => "withdraw" case Borrow => "borrow" case Repay => "repay")
    case SwapAction(_, _, _, _, _) => "swap"
    case TransferAction(_, _, _) => "transfer"
    case VoteAction(_, _) => "castVote"
    case UnknownAction(kind) => kind
  }

  function Unlabelled(n: nat): (r: seq<Option<Label>>)
    ensures |r| == n
  {
    seq(n, _ => None)
  }

  /** Whether an approval may come before the call of this kind of action. */
  predicate MayApprove(kind: string) {
    kind in ["supply", "repay", "swap"]
  }

  /** The labels written from action `k` on, reading the calls from `offset`. */
  function AnnotateFrom(actions: seq<Action>, calls: seq<Call>, labels: seq<Option<Label>>, k: nat, offset: nat): (r: seq<Option<Label>>)
    requires |labels| == |calls| && k <= |actions|
    ensures |r| == |labels|
    decreases |actions| - k
  {
    if k == |actions| then
      labels
    else
      var kind := TypeOf(actions[k]);
      var approval := MayApprove(kind) && offset < |calls| && calls[offset].ApproveCall?;
      var labels1 := if approval then labels[offset := Some(Label(k, "approve"))] else labels;
      var at := if approval then offset + 1 else offset;
      var labels2 := if at < |calls| then labels1[at := Some(Label(k, kind))] else labels1;
      AnnotateFrom(actions, calls, labels2, k + 1, at + 1)
  }

  /** Where the next action would start reading. */
  function OffsetAfter(actions: seq<Action>, calls: seq<Call>, k: nat, offset: nat): nat
    requires k <= |actions|
    decreases |actions| - k
  {
    if k == |actions| then
      offset
    else
      var approval := MayApprove(TypeOf(actions[k])) && offset < |calls| && calls[offset].ApproveCall?;
      OffsetAfter(actions, calls, k + 1, if approval then offset + 2 else offset + 1)
  }

  function Annotated(actions: seq<Action>, calls: seq<Call>): seq<Option<Label>> {
    AnnotateFrom(actions, calls, Unlabelled(|calls|), 0, 0)
  }

  method AnnotateActionCalls(actions: seq<Action>, calls: seq<Call>, labels: array<Option<Label>>)
    requires labels.Length == |calls|
    modifies labels
    ensures labels[..] == AnnotateFrom(actions, calls, old(labels[..]), 0, 0)
  {
    hide TypeOf, MayApprove;
    var offset := 0;
    for actionIndex := 0 to |actions|
      invariant 0 <= offset
      invariant AnnotateFrom(actions, calls, labels[..], actionIndex, offset) ==
                AnnotateFrom(actions, calls, old(labels[..]), 0, 0)
    {
      ghost var before := labels[..];
      var kind := TypeOf(actions[actionIndex]);
      if MayApprove(kind) && offset < |calls| && calls[offset].ApproveCall? {
        labels[offset] := Some(Label(actionIndex, "approve"));
        assert labels[..] == before[offset := Some(Label(actionIndex, "approve"))];
        offset := offset + 1;
      }
      ghost var middle := labels[..];
      if offset < |calls| {
        labels[offset] := Some(Label(actionIndex, kind));
        assert labels[..] == middle[offset := Some(Label(actionIndex, kind))];
      }
      offset := offset + 1;
    }
  }

  // ---------- who emitted what ----------

  function EmittedLabels(k: int, kind: string, emitted: seq<Call>): (r: seq<Option<Label>>)
    ensures |r| == |emitted|
  {
    seq(|emitted|, i requires 0 <= i < |emitted| => Some(Label(k, if emitted[i].ApproveCall? then "approve" else kind)))
  }

  /** The labels of the calls that actions `k` on emit, starting from batch `b`. */
  function Provenance(env: Env, b: Batch, actions: seq<Action>, k: nat): seq<Option<Label>>
    requires k <= |actions|
    decreases |actions| - k
  {
    if k == |actions| then
      []
    else
      var next := CompileAction(env, b, actions[k]);
      if next.Err? || |next.value.calls| < |b.calls| then []
      else EmittedLabels(k, TypeOf(actions[k]), next.value.calls[|b.calls|..]) + Provenance(env, next.value, actions, k + 1)
  }

  /** The calls one action emits: its own call, after an approval at most. */
  ghost predicate EmissionShape(a: Action, emitted: seq<Call>) {
    || (|emitted| == 1 && (emitted[0].ApproveCall? <==> a.ApproveAction?))
    || (|emitted| == 2 && MayApprove(TypeOf(a)) && emitted[0].ApproveCall? && !emitted[1].ApproveCall?)
  }

  lemma {:induction false} ActionEmission(env: Env, b: Batch, a: Action)
    requires CompileAction(env, b, a).Ok?
    ensures var b' := CompileAction(env, b, a).value;
            b.calls <= b'.calls && EmissionShape(a, b'.calls[|b.calls|..])
  {
  }

  /** One action consumes exactly the calls it emitted. */
  lemma {:induction false} AnnotateStep(actions: seq<Action>, calls: seq<Call>, labels: seq<Option<Label>>, k: nat, offset: nat, emitted: seq<Call>)
    requires |labels| == |calls| && k < |actions| && offset + |emitted| <= |calls|
    requires calls[offset..offset + |emitted|] == emitted && EmissionShape(actions[k], emitted)
    ensures AnnotateFrom(actions, calls, labels, k, offset) ==
            AnnotateFrom(actions, calls,
                         labels[..offset] + EmittedLabels(k, TypeOf(actions[k]), emitted) + labels[offset + |emitted|..],
                         k + 1, offset + |emitted|)
    ensures OffsetAfter(actions, calls, k, offset) == OffsetAfter(actions, calls, k + 1, offset + |emitted|)
  {
    assert calls[offset] == emitted[0];
    var kind := TypeOf(actions[k]);
    var target := labels[..offset] + EmittedLabels(k, kind, emitted) + labels[offset + |emitted|..];
    if |emitted| == 1 {
      assert target == labels[offset := Some(Label(k, kind))];
    } else {
      assert calls[offset + 1] == emitted[1];
      assert target == labels[offset := Some(Label(k, "approve"))][offset + 1 := Some(Label(k, kind))];
    }
  }

  /** The first action of a compilation, its emission, and the rest. */
  lemma {:induction false} FirstAction(env: Env, b: Batch, actions: seq<Action>, k: nat)
    requires k < |actions| && CompileFrom(env, b, actions[k..]).Ok?
    ensures CompileAction(env, b, actions[k]).Ok?
    ensures var next := CompileAction(env, b, actions[k]).value;
            && b.calls <= next.calls && EmissionShape(actions[k], next.calls[|b.calls|..])
            && CompileFrom(env, b, actions[k..]) == CompileFrom(env, next, actions[k + 1..])
            && next.calls <= CompileFrom(env, b, actions[k..]).value.calls
            && Provenance(env, b, actions, k) ==
               EmittedLabels(k, TypeOf(actions[k]), next.calls[|b.calls|..]) + Provenance(env, next, actions, k + 1)
  {
    hide CompileAction;
    assert actions[k..][0] == actions[k] && actions[k..][1..] == actions[k + 1..];
    var next := CompileAction(env, b, actions[k]).value;
    ActionEmission(env, b, actions[k]);
    CallsGrow(env, next, actions[k + 1..]);
  }

  lemma {:induction false} AnnotateCompiled(env: Env, b: Batch, actions: seq<Action>, k: nat, calls: seq<Call>, labels: seq<Option<Label>>)
    requires k <= |actions| && CompileFrom(env, b, actions[k..]).Ok?
    requires CompileFrom(env, b, actions[k..]).value.calls <= calls && |labels| == |calls|
    ensures var end := |CompileFrom(env, b, actions[k..]).value.calls|;
            && |Provenance(env, b, actions, k)| == end - |b.calls|
            && AnnotateFrom(actions, calls, labels, k, |b.calls|) ==
               labels[..|b.calls|] + Provenance(env, b, actions, k) + labels[end..]
            && OffsetAfter(actions, calls, k, |b.calls|) == end
    decreases |actions| - k, 1
  {
    if k == |actions| {
      assert labels == labels[..|b.calls|] + [] + labels[|b.calls|..];
    } else {
      AnnotateOneMore(env, b, actions, k, calls, labels);
    }
  }

  lemma {:induction false} AnnotateOneMore(env: Env, b: Batch, actions: seq<Action>, k: nat, calls: seq<Call>, labels: seq<Option<Label>>)
    requires k < |actions| && CompileFrom(env, b, actions[k..]).Ok?
    requires CompileFrom(env, b, actions[k..]).value.calls <= calls && |labels| == |calls|
    ensures var end := |CompileFrom(env, b, actions[k..]).value.calls|;
            && |Provenance(env, b, actions, k)| == end - |b.calls|
            && AnnotateFrom(actions, calls, labels, k, |b.calls|) ==
               labels[..|b.calls|] + Provenance(env, b, actions, k) + labels[end..]
            && OffsetAfter(actions, calls, k, |b.calls|) == end
    decreases |actions| - k, 0
  {
    hide CompileAction, CompileFrom, Provenance, AnnotateFrom, EmissionShape, OffsetAfter;
    FirstAction(env, b, actions, k);
    var next := CompileAction(env, b, actions[k]).value;
    var n, emitted := |b.calls|, next.calls[|b.calls|..];
    var own := EmittedLabels(k, TypeOf(actions[k]), emitted);
    assert calls[n..n + |emitted|] == emitted;
    AnnotateStep(actions, calls, labels, k, n, emitted);
    AnnotateCompiled(env, next, actions, k + 1, calls, labels[..n] + own + labels[n + |emitted|..]);
  }

  /** Annotation inverts compilation: every call the actions emitted gets the index of its action,
      approvals are labelled as such, and the resets at the end are exactly what stays unlabelled. */
  lemma {:induction false} AnnotationInverts(env: Env, actions: seq<Action>, maxActions: Option<int>)
    requires |actions| > 0 && Compile(env, actions, maxActions).Ok?
    ensures var calls, b := Compile(env, actions, maxActions).value, CompileFrom(env, Empty(), actions).value;
            Annotated(actions, calls) == Provenance(env, Empty(), actions, 0) + Unlabelled(|b.cleanup|)
    ensures |Provenance(env, Empty(), actions, 0)| == |CompileFrom(env, Empty(), actions).value.calls|
  {
    var b := CompileFrom(env, Empty(), actions).value;
    var calls := b.calls + Resets(b.cleanup);
    assert actions[0..] == actions;
    AnnotateCompiled(env, Empty(), actions, 0, calls, Unlabelled(|calls|));
    assert Unlabelled(|calls|)[|b.calls|..] == Unlabelled(|b.cleanup|);
    assert Unlabelled(|calls|)[..0] == [];
  }

  // ---------- annotating with a plan other than the one compiled ----------

  /** The risk guard's filter. */
  function WithoutBorrows(actions: seq<Action>): seq<Action> {
    if |actions| == 0 then []
    else (if TypeOf(actions[0]) == "borrow" then [] else [actions[0]]) + WithoutBorrows(actions[1..])
  }

  lemma {:induction false} WritesFromOffset(actions: seq<Action>, calls: seq<Call>, labels: seq<Option<Label>>, k: nat, offset: nat)
    requires |labels| == |calls| && k <= |actions|
    ensures forall i :: 0 <= i < offset && i < |labels| ==> AnnotateFrom(actions, calls, labels, k, offset)[i] == labels[i]
    decreases |actions| - k
  {
    if k < |actions| {
      var kind := TypeOf(actions[k]);
      var approval := MayApprove(kind) && offset < |calls| && calls[offset].ApproveCall?;
      var labels1 := if approval then labels[offset := Some(Label(k, "approve"))] else labels;
      var at := if approval then offset + 1 else offset;
      var labels2 := if at < |calls| then labels1[at := Some(Label(k, kind))] else labels1;
      WritesFromOffset(actions, calls, labels2, k + 1, at + 1);
    }
  }

  lemma {:induction false} NothingLeftToWrite(actions: seq<Action>, calls: seq<Call>, labels: seq<Option<Label>>, k: nat, offset: nat)
    requires |labels| == |calls| <= offset && k <= |actions|
    ensures AnnotateFrom(actions, calls, labels, k, offset) == labels
    decreases |actions| - k
  {
    if k < |actions| {
      NothingLeftToWrite(actions, calls, labels, k + 1, offset + 1);
    }
  }

  /** Annotating with a plan is annotating with its first `n` actions and then going on. */
  lemma {:induction false} AnnotatePrefix(actions: seq<Action>, n: nat, calls: seq<Call>, labels: seq<Option<Label>>, k: nat, offset: nat)
    requires |labels| == |calls| && k <= n <= |actions|
    ensures AnnotateFrom(actions, calls, labels, k, offset) ==
            AnnotateFrom(actions, calls, AnnotateFrom(actions[..n], calls, labels, k, offset), n,
                         OffsetAfter(actions[..n], calls, k, offset))
    decreases n - k
  {
    hide TypeOf, MayApprove;
    if k < n {
      var kind := TypeOf(actions[k]);
      assert actions[..n][k] == actions[k];
      var approval := MayApprove(kind) && offset < |calls| && calls[offset].ApproveCall?;
      var labels1 := if approval then labels[offset := Some(Label(k, "approve"))] else labels;
      var at := if approval then offset + 1 else offset;
      var labels2 := if at < |calls| then labels1[at := Some(Label(k, kind))] else labels1;
      AnnotatePrefix(actions, n, calls, labels2, k + 1, at + 1);
    }
  }

  lemma {:induction false} CompileSplit(env: Env, b: Batch, first: seq<Action>, rest: seq<Action>)
    requires CompileFrom(env, b, first + rest).Ok?
    ensures CompileFrom(env, b, first).Ok?
    ensures CompileFrom(env, b, first + rest) == CompileFrom(env, CompileFrom(env, b, first).value, rest)
    decreases |first|
  {
    hide CompileAction;
    if |first| == 0 {
      assert first + rest == rest;
    } else {
      assert (first + rest)[1..] == first[1..] + rest;
      CompileSplit(env, CompileAction(env, b, first[0]).value, first[1..], rest);
    }
  }

  /** The first action the filter drops: up to it the two plans agree, after it the filtered one
      goes on with something that is not a borrow, if with anything. */
  lemma {:induction false} FirstDropped(planned: seq<Action>) returns (k: nat)
    requires WithoutBorrows(planned) != planned
    ensures k < |planned| && TypeOf(planned[k]) == "borrow"
    ensures k <= |WithoutBorrows(planned)| && planned[..k] == WithoutBorrows(planned)[..k]
    ensures k < |WithoutBorrows(planned)| ==> TypeOf(WithoutBorrows(planned)[k]) != "borrow"
  {
    NoBorrowsLeft(planned);
    if TypeOf(planned[0]) == "borrow" {
      k := 0;
    } else {
      var rest := WithoutBorrows(planned[1..]);
      assert planned == [planned[0]] + planned[1..];
      k := FirstDropped(planned[1..]);
      assert planned[..k + 1] == [planned[0]] + planned[1..][..k];
      assert WithoutBorrows(planned)[..k + 1] == [planned[0]] + rest[..k];
      k := k + 1;
    }
  }

  lemma {:induction false} NoBorrowsLeft(planned: seq<Action>)
    ensures forall i :: 0 <= i < |WithoutBorrows(planned)| ==> TypeOf(WithoutBorrows(planned)[i]) != "borrow"
  {
    if |planned| > 0 {
      NoBorrowsLeft(planned[1..]);
    }
  }

  lemma {:induction false} NoApprovalMeansNoReset(b: Batch)
    requires CleanupIsApproved(b)
    ensures |b.cleanup| == 0 <==> NoApproval(b.calls + Resets(b.cleanup))
  {
    var calls := b.calls + Resets(b.cleanup);
    if |b.cleanup| == 0 {
      forall k | 0 <= k < |calls| ensures !calls[k].ApproveCall? {
        assert !Approves(b.calls, if calls[k].ApproveCall? then calls[k].pair else Pair(CENT, Router));
      }
    } else {
      assert calls[|b.calls|].ApproveCall?;
    }
  }

  /** The label both annotations give, or fail to give, right where the first dropped borrow stood. */
  lemma {:induction false} LabelsAtDropped(planned: seq<Action>, guarded: seq<Action>, calls: seq<Call>, labels: seq<Option<Label>>, k: nat, offset: nat)
    requires |labels| == |calls| && k < |planned| && k <= |guarded| && offset < |calls|
    requires TypeOf(planned[k]) == "borrow" && (k < |guarded| ==> TypeOf(guarded[k]) != "borrow")
    requires labels[offset] == None
    ensures AnnotateFrom(planned, calls, labels, k, offset)[offset] == Some(Label(k, "borrow"))
    ensures AnnotateFrom(guarded, calls, labels, k, offset)[offset] != Some(Label(k, "borrow"))
  {
    WritesFromOffset(planned, calls, labels[offset := Some(Label(k, "borrow"))], k + 1, offset + 1);
    if k < |guarded| {
      var kind := TypeOf(guarded[k]);
      if MayApprove(kind) && calls[offset].ApproveCall? {
        var labels1 := labels[offset := Some(Label(k, "approve"))];
        var labels2 := if offset + 1 < |calls| then labels1[offset + 1 := Some(Label(k, kind))] else labels1;
        WritesFromOffset(guarded, calls, labels2, k + 1, offset + 2);
      } else {
        WritesFromOffset(guarded, calls, labels[offset := Some(Label(k, kind))], k + 1, offset + 1);
      }
    }
  }

  /** Annotating the calls of the filtered plan with the unfiltered one gives the right labels
      exactly when nothing was dropped, or only borrows at the very end of a plan whose batch
      holds no approval. */
  lemma {:induction false} PlannedLabelsRightIff(env: Env, planned: seq<Action>, maxActions: Option<int>)
    requires Compile(env, WithoutBorrows(planned), maxActions).Ok?
    ensures var guarded := WithoutBorrows(planned);
            var calls := Compile(env, guarded, maxActions).value;
            Annotated(planned, calls) == Annotated(guarded, calls) <==>
            guarded == planned || (guarded <= planned && NoApproval(calls))
  {
    hide AnnotateFrom, CompileFrom, Compile, NoApproval, TypeOf;
    var guarded := WithoutBorrows(planned);
    var calls := Compile(env, guarded, maxActions).value;
    if |guarded| == 0 {
      NothingToDo(env, maxActions);
      NothingLeftToWrite(planned, calls, Unlabelled(0), 0, 0);
      NothingLeftToWrite(guarded, calls, Unlabelled(0), 0, 0);
      assert calls == [] && NoApproval(calls) by { NoApprovalEmpty(); assert guarded == []; }
    } else if guarded != planned {
      var b := CompiledFrom(env, guarded, maxActions);
      var k := FirstDropped(planned);
      var offset, labels := PrefixLabels(env, guarded, b, k, calls);
      AnnotatePrefix(planned, k, calls, Unlabelled(|calls|), 0, 0);
      AnnotatePrefix(guarded, k, calls, Unlabelled(|calls|), 0, 0);
      NoApprovalMeansNoReset(b);
      if offset < |calls| {
        LabelsAtDropped(planned, guarded, calls, labels, k, offset);
        if k < |guarded| { assert TypeOf(guarded[k]) != TypeOf(planned[k]); }
      } else {
        NothingLeftToWrite(planned, calls, labels, k, offset);
        NothingLeftToWrite(guarded, calls, labels, k, offset);
      }
    }
  }

  lemma {:induction false} NoApprovalEmpty()
    ensures NoApproval([])
  {
  }

  /** After the first `k` actions of a compiled plan: the offset is the number of calls they emitted,
      and nothing from there on is labelled. It reaches the end only for a whole plan without resets. */
  lemma {:induction false} PrefixLabels(env: Env, guarded: seq<Action>, b: Batch, k: nat, calls: seq<Call>)
      returns (offset: nat, labels: seq<Option<Label>>)
    requires k <= |guarded| && CompileFrom(env, Empty(), guarded) == Ok(b) && calls == b.calls + Resets(b.cleanup)
    ensures labels == AnnotateFrom(guarded[..k], calls, Unlabelled(|calls|), 0, 0) && |labels| == |calls|
    ensures offset == OffsetAfter(guarded[..k], calls, 0, 0) <= |calls|
    ensures offset < |calls| ==> labels[offset] == None
    ensures offset == |calls| <==> k == |guarded| && |b.cleanup| == 0
  {
    var first, rest := guarded[..k], guarded[k..];
    assert first + rest == guarded && first[0..] == first;
    CompileSplit(env, Empty(), first, rest);
    var mid := CompileFrom(env, Empty(), first).value;
    CallsGrow(env, mid, rest);
    BatchSize(env, mid, rest);
    labels := AnnotateFrom(first, calls, Unlabelled(|calls|), 0, 0);
    AnnotateCompiled(env, Empty(), first, 0, calls, Unlabelled(|calls|));
    offset := |mid.calls|;
  }

  /** A borrow dropped before a vote: the vote's call is labelled as the borrow. */
  lemma {:induction false} DroppedBorrowMislabels(env: Env) returns (planned: seq<Action>)
    requires env.allows(VoteAction(1, 1))
    ensures planned == [PoolOperation(Borrow, Some(USDC), 1), VoteAction(1, 1)]
    ensures WithoutBorrows(planned) == [VoteAction(1, 1)]
    ensures Compile(env, WithoutBorrows(planned), None) == Ok([VoteCall(1, 1)])
    ensures Annotated(planned, [VoteCall(1, 1)]) == [Some(Label(0, "borrow"))]
    ensures Annotated(WithoutBorrows(planned), [VoteCall(1, 1)]) == [Some(Label(0, "castVote"))]
  {
    var borrow, vote, calls := PoolOperation(Borrow, Some(USDC), 1), VoteAction(1, 1), [VoteCall(1, 1)];
    planned := [borrow, vote];
    var guarded := [vote];
    assert planned[1..] == [vote] && guarded[1..] == [];
    assert WithoutBorrows([]) == [] && WithoutBorrows([vote]) == [vote];
    var b := CompileAction(env, Empty(), vote).value;
    assert b == Batch(calls, map[], []);
    assert CompileFrom(env, b, []) == Ok(b) && CompileFrom(env, Empty(), guarded) == Ok(b);
    assert Resets([]) == [] && calls + [] == calls;
    var labels := [Some(Label(0, "borrow"))];
    assert Unlabelled(1)[0 := Some(Label(0, "borrow"))] == labels;
    NothingLeftToWrite(planned, calls, labels, 1, 1);
    assert Unlabelled(1)[0 := Some(Label(0, "castVote"))] == [Some(Label(0, "castVote"))];
    NothingLeftToWrite(guarded, calls, [Some(Label(0, "castVote"))], 1, 1);
  }
}
