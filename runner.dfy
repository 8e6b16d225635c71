/**
 * `runRootCmd`: the statements of the file are dealt to lanes of
 * `len/numThreads + 1` statements each, every lane runs `execCQLs` on the
 * shared session, and the first lane error is the command's error.
 *
 * The lanes run concurrently in the program. Here they run one after the
 * other, in lane order, and the error reported is that of the lowest lane
 * that failed. The stop channel is closed only after every lane has
 * returned, so no lane ever sees it: every lane runs with the stop signal
 * unset.
 */
module Runner {
  import opened Wrappers
  import opened Statements
  import opened Lanes
  import opened LaneExecutor

  /**
   * Every lane of `lanes`, run to its end in lane order on a session that
   * answers with `accepts`: the statements sent are those of each lane in
   * turn, and the outcome is the first lane outcome that is not `Completed`.
   */
  function Dispatch(lanes: seq<seq<string>>, accepts: string -> bool): LaneTrace
  {
    if lanes == [] then LaneTrace([], Completed)
    else
      var before := Dispatch(lanes[..|lanes| - 1], accepts);
      var last := Lane(lanes[|lanes| - 1], accepts, false);
      LaneTrace(before.sent + last.sent, if before.outcome == Completed then last.outcome else before.outcome)
  }

  /** Running one more lane adds what that lane sends; its outcome counts only if all before it completed. */
  lemma DispatchSnocLane(lanes: seq<seq<string>>, l: seq<string>, accepts: string -> bool)
    ensures var before, last := Dispatch(lanes, accepts), Lane(l, accepts, false);
            Dispatch(lanes + [l], accepts)
            == LaneTrace(before.sent + last.sent, if before.outcome == Completed then last.outcome else before.outcome)
  {
    assert (lanes + [l])[..|lanes|] == lanes;
  }

  /** `s` is `e` with some statements left out, the rest in their order. */
  predicate Subseq(s: seq<string>, e: seq<string>)
    decreases |e|
  {
    if s == [] then true
    else if e == [] then false
    else (s[0] == e[0] && Subseq(s[1..], e[1..])) || Subseq(s, e[1..])
  }

  lemma {:induction false} PrefixSubseq(p: seq<string>, e: seq<string>)
    requires p <= e
    ensures Subseq(p, e)
    decreases |p|
  {
    if p != [] {
      assert p[1..] <= e[1..];
      PrefixSubseq(p[1..], e[1..]);
    }
  }

  lemma {:induction false} SubseqWiden(s: seq<string>, pre: seq<string>, e: seq<string>)
    requires Subseq(s, e)
    ensures Subseq(s, pre + e)
    decreases |pre|
  {
    if pre != [] {
      SubseqWiden(s, pre[1..], e);
      assert (pre + e)[1..] == pre[1..] + e;
    } else {
      assert pre + e == e;
    }
  }

  lemma {:induction false} SubseqAppend(a1: seq<string>, e1: seq<string>, a2: seq<string>, e2: seq<string>)
    requires Subseq(a1, e1) && Subseq(a2, e2)
    ensures Subseq(a1 + a2, e1 + e2)
    decreases |e1|
  {
    if a1 == [] {
      assert a1 + a2 == a2;
      SubseqWiden(a2, e1, e2);
    } else {
      assert (a1 + a2)[0] == a1[0] && (a1 + a2)[1..] == a1[1..] + a2;
      assert (e1 + e2)[0] == e1[0] && (e1 + e2)[1..] == e1[1..] + e2;
      if a1[0] == e1[0] && Subseq(a1[1..], e1[1..]) {
        SubseqAppend(a1[1..], e1[1..], a2, e2);
      } else {
        SubseqAppend(a1, e1[1..], a2, e2);
      }
    }
  }

  /**
   * `d` is what running statements whose executable part is `e` may give:
   * it never stops, it completes exactly when the session accepts all of `e`
   * and has then sent exactly `e`, a failure names a rejected statement that
   * was sent, and what is sent is `e` with some statements left out, the
   * rest in their order.
   */
  predicate Summarizes(d: LaneTrace, e: seq<string>, accepts: string -> bool)
  {
    && d.outcome != Stopped
    && (d.outcome == Completed <==> AllAccepted(e, accepts))
    && (d.outcome == Completed ==> d.sent == e)
    && (d.outcome.ExecFailed? ==> d.outcome.cql in d.sent && !accepts(d.outcome.cql))
    && Subseq(d.sent, e)
  }

  /** Adding one lane with no stop signal to a run keeps the summary of the whole. */
  lemma DispatchSnoc(b: LaneTrace, e1: seq<string>, l: seq<string>, accepts: string -> bool)
    requires Summarizes(b, e1, accepts)
    ensures var t := Lane(l, accepts, false);
            Summarizes(LaneTrace(b.sent + t.sent, if b.outcome == Completed then t.outcome else b.outcome),
                       e1 + Executable(l), accepts)
  {
    var t := Lane(l, accepts, false);
    var e2 := Executable(l);
    LaneSpec(l, accepts, false);
    AllAcceptedAppend(e1, e2, accepts);
    var d := LaneTrace(b.sent + t.sent, if b.outcome == Completed then t.outcome else b.outcome);
    PrefixSubseq(t.sent, e2);
    SubseqAppend(b.sent, e1, t.sent, e2);
    if d.outcome.ExecFailed? && b.outcome == Completed {
      assert t.sent[|t.sent| - 1] in d.sent;
    }
  }

  /**
   * Whatever the lanes, the run summarizes the executable statements of all
   * of them taken together.
   */
  lemma {:induction false} DispatchSpec(lanes: seq<seq<string>>, accepts: string -> bool)
    ensures Summarizes(Dispatch(lanes, accepts), Executable(Flatten(lanes)), accepts)
  {
    if lanes != [] {
      var init, l := lanes[..|lanes| - 1], lanes[|lanes| - 1];
      DispatchSpec(init, accepts);
      FlattenSnoc(lanes);
      ExecutableAppend(Flatten(init), l);
      DispatchSnoc(Dispatch(init, accepts), Executable(Flatten(init)), l, accepts);
    }
  }

  /** The index of the first lane with a rejected executable statement, or `|lanes|` if none has one. */
  function FirstFailingLane(lanes: seq<seq<string>>, accepts: string -> bool): (k: nat)
    ensures k <= |lanes|
    ensures forall i :: 0 <= i < k ==> AllAccepted(Executable(lanes[i]), accepts)
    ensures k < |lanes| ==> !AllAccepted(Executable(lanes[k]), accepts)
  {
    if lanes == [] then 0
    else if !AllAccepted(Executable(lanes[0]), accepts) then 0
    else 1 + FirstFailingLane(lanes[1..], accepts)
  }

  /**
   * The error `Wait` reports is the first rejected executable statement of
   * the lowest lane that has one; when no lane has one, the run completes.
   */
  lemma {:induction false} DispatchFirstFailure(lanes: seq<seq<string>>, accepts: string -> bool)
    ensures var k := FirstFailingLane(lanes, accepts);
            k == |lanes| ==> Dispatch(lanes, accepts).outcome == Completed
    ensures var k := FirstFailingLane(lanes, accepts);
            k < |lanes| ==>
              var e := Executable(lanes[k]);
              FirstRejected(e, accepts) < |e|
              && Dispatch(lanes, accepts).outcome == ExecFailed(e[FirstRejected(e, accepts)])
  {
    if lanes != [] {
      var init, l := lanes[..|lanes| - 1], lanes[|lanes| - 1];
      DispatchFirstFailure(init, accepts);
      LaneFirstRejected(l, accepts);
      var k0, k := FirstFailingLane(init, accepts), FirstFailingLane(lanes, accepts);
      assert forall i :: 0 <= i < |init| ==> lanes[i] == init[i];
      if k0 < |init| {
        assert k == k0;
        LaneFirstRejected(init[k0], accepts);
      } else {
        assert k >= |init|;
      }
    }
  }

  /**
   * A failing lane does not keep the others from running: with lanes `[a]`
   * and `[b]`, where `a` is rejected, `b` is still sent, and the error is
   * that of `a`.
   */
  lemma DispatchKeepsGoing(a: string, b: string, accepts: string -> bool)
    requires a != "" && a[0] !in LineBreaks && a[|a| - 1] !in LineBreaks
    requires b != "" && b[0] !in LineBreaks && b[|b| - 1] !in LineBreaks
    requires !accepts(a) && accepts(b)
    ensures Dispatch([[a], [b]], accepts) == LaneTrace([a, b], ExecFailed(a))
  {
    TrimCQLKeeps(a);
    TrimCQLKeeps(b);
    assert [[a], [b]][..1] == [[a]] && [[a]][..0] == [];
    assert [b][1..] == [];
    assert Lane([a], accepts, false) == LaneTrace([a], ExecFailed(a));
    assert Trimmed([a]) == [a] && Trimmed([b]) == [b];
    assert Run([b], accepts, false) == LaneTrace([b] + Run([], accepts, false).sent, Completed);
    assert Lane([b], accepts, false) == LaneTrace([b], Completed);
    assert Dispatch([[a]], accepts) == LaneTrace([a], ExecFailed(a));
  }

  /**
   * `errgroup.Group`: `Go` starts a lane, `Wait` returns the first error a
   * lane returned. Each lane runs here to its end before the next one starts.
   * `started` holds the lanes started so far, and everything they sent went
   * to the session after `start`.
   */
  class ErrGroup {
    var first: LaneOutcome
    ghost var started: seq<seq<string>>
    ghost const start: seq<string>

    /** The first error recorded, and what the session received, are those of running `started`. */
    ghost predicate Valid(sess: Session)
      reads this, sess
    {
      && sess.sent == start + Dispatch(started, sess.accepts).sent
      && first == Dispatch(started, sess.accepts).outcome
    }

    constructor (sess: Session)
      ensures started == [] && start == sess.sent && Valid(sess)
    {
      first := Completed;
      started := [];
      start := sess.sent;
    }

    /** `eg.Go(func() error { return execCQLs(sess, cqls, i, stopCh) })`: runs one more lane. */
    method Go(sess: Session, cqls: seq<string>)
      requires Valid(sess)
      modifies this, sess
      ensures Valid(sess) && started == old(started) + [cqls]
    {
      DispatchSnocLane(started, cqls, sess.accepts);
      ghost var before := Dispatch(started, sess.accepts).sent;
      var o := ExecCQLs(sess, cqls, false);
      assert sess.sent == start + (before + Lane(cqls, sess.accepts, false).sent);
      if first == Completed {
        first := o;
      }
      started := started + [cqls];
    }

    /** `eg.Wait()`: the first error, `Completed` when no lane failed. */
    method Wait(sess: Session) returns (outcome: LaneOutcome)
      requires Valid(sess)
      ensures outcome == Dispatch(started, sess.accepts).outcome
    {
      return first;
    }
  }

  /** Starts one lane per chunk in an error group, then waits for the first error. */
  method RunLanes(sess: Session, lanes: seq<seq<string>>) returns (outcome: LaneOutcome)
    modifies sess
    ensures sess.sent == old(sess.sent) + Dispatch(lanes, sess.accepts).sent
    ensures outcome == Dispatch(lanes, sess.accepts).outcome
  {
    var eg := new ErrGroup(sess);
    for i := 0 to |lanes|
      invariant eg.Valid(sess) && eg.started == lanes[..i] && eg.start == old(sess.sent)
    {
      eg.Go(sess, lanes[i]);
      assert lanes[..i + 1] == lanes[..i] + [lanes[i]];
    }
    assert lanes[..|lanes|] == lanes;
    outcome := eg.Wait(sess);
  }

  /** Why the command fails. */
  datatype RunError =
    | ReadFailed                               // the statement file could not be read
    | SessionFailed                            // no session could be created
    | PartitionFailed(reason: PartitionError)  // the thread count could not deal the statements
    | LaneFailed(outcome: LaneOutcome)          // the first lane error

  /**
   * `runRootCmd`. Reading the file gives `file` (`None` when it cannot be
   * read) and creating the session succeeds when `connected`, with `sess` as
   * the session. The statements are cut at `;`, dealt to lanes and run; the
   * error, if any, is the first of these steps to fail.
   */
  method RunRootCmd(sess: Session, file: Option<string>, connected: bool, numThreads: int)
    returns (err: Option<RunError>)
    modifies sess
    ensures file.None? ==> err == Some(ReadFailed) && sess.sent == old(sess.sent)
    ensures file.Some? && !connected ==> err == Some(SessionFailed) && sess.sent == old(sess.sent)
    ensures file.Some? && connected ==>
              var p := Partition(ReadCQLs(file.value), numThreads);
              && (p.Failure? ==> err == Some(PartitionFailed(p.error)) && sess.sent == old(sess.sent))
              && (p.Success? ==>
                    var d := Dispatch(p.value, sess.accepts);
                    && sess.sent == old(sess.sent) + d.sent
                    && (d.outcome == Completed ==> err == None)
                    && (d.outcome != Completed ==> err == Some(LaneFailed(d.outcome))))
  {
    if file.None? {
      return Some(ReadFailed);
    }
    var cqls := ReadCQLs(file.value);
    if !connected {
      return Some(SessionFailed);
    }
    var p := Partition(cqls, numThreads);
    if p.Failure? {
      return Some(PartitionFailed(p.error));
    }
    var outcome := RunLanes(sess, p.value);
    if outcome != Completed {
      return Some(LaneFailed(outcome));
    }
    return None;
  }

  /**
   * For any file and any positive thread count, the run summarizes the
   * executable statements of the whole file: it succeeds exactly when the
   * session accepts every one of them, and then it has sent each of them
   * once, in file order.
   */
  lemma RunRootCmdSpec(text: string, numThreads: int, accepts: string -> bool)
    requires numThreads >= 1
    ensures Partition(ReadCQLs(text), numThreads).Success?
    ensures Summarizes(Dispatch(Partition(ReadCQLs(text), numThreads).value, accepts),
                       Executable(ReadCQLs(text)), accepts)
  {
    DispatchSpec(Partition(ReadCQLs(text), numThreads).value, accepts);
  }

  /** With one thread there is one lane, holding every statement of the file. */
  lemma RunSingleThread(text: string, accepts: string -> bool)
    ensures Partition(ReadCQLs(text), 1).Success?
    ensures Dispatch(Partition(ReadCQLs(text), 1).value, accepts) == Lane(ReadCQLs(text), accepts, false)
  {
    var cqls := ReadCQLs(text);
    assert Chunk(cqls, |cqls| + 1) == [cqls];
    assert [cqls][..0] == [];
  }

  /** An empty file is one empty statement: nothing is sent and the run succeeds. */
  lemma RunEmptyFile(numThreads: int, accepts: string -> bool)
    requires numThreads >= 1
    ensures Dispatch(Partition(ReadCQLs(""), numThreads).value, accepts) == LaneTrace([], Completed)
  {
    var cqls := ReadCQLs("");
    assert cqls == [""];
    TrimCQLKeeps("");
    var lanes := Partition(cqls, numThreads).value;
    assert Chunk(cqls, ChunkSize(1, numThreads)) == [cqls];
    assert lanes == [[""]];
    assert [[""]][..0] == [];
    assert [""][1..] == [];
  }
}
