/**
 * One lane: the statements of its chunk, trimmed, with the empty ones
 * skipped, sent one at a time to the shared session until one fails or the
 * stop signal is seen after a successful statement.
 */
module LaneExecutor {
  import opened Statements

  /**
   * The cluster session. It records every statement sent to it, in order, and
   * answers from `accepts` whether the statement executed without error.
   */
  class Session {
    var sent: seq<string>
    const accepts: string -> bool

    constructor (accepts: string -> bool)
      ensures this.accepts == accepts && sent == []
    {
      this.accepts := accepts;
      sent := [];
    }

    /** `sess.Query(cql).Exec()`: sends one statement and reports whether it succeeded. */
    method Exec(cql: string) returns (ok: bool)
      modifies this
      ensures sent == old(sent) + [cql]
      ensures ok == accepts(cql)
    {
      sent := sent + [cql];
      ok := accepts(cql);
    }
  }

  /** How a lane ends. */
  datatype LaneOutcome =
    | Completed                // every statement of the chunk was executed
    | ExecFailed(cql: string)  // the session rejected `cql`, as trimmed
    | Stopped                  // the stop signal was seen after a successful statement

  /** What a lane sends to the session and how it ends. */
  datatype LaneTrace = LaneTrace(sent: seq<string>, outcome: LaneOutcome)

  /** Every statement of `cqls`, trimmed as it would be sent. */
  function Trimmed(cqls: seq<string>): seq<string>
  {
    seq(|cqls|, i requires 0 <= i < |cqls| => TrimCQL(cqls[i]))
  }

  lemma TrimmedAppend(a: seq<string>, b: seq<string>)
    ensures Trimmed(a + b) == Trimmed(a) + Trimmed(b)
  {
    forall i | 0 <= i < |a + b| ensures Trimmed(a + b)[i] == (Trimmed(a) + Trimmed(b))[i] {
      if i < |a| {
        assert (a + b)[i] == a[i];
      } else {
        assert (a + b)[i] == b[i - |a|];
      }
    }
  }

  /** The statements of `ts` that are not empty, in order. */
  function NonEmpty(ts: seq<string>): seq<string>
  {
    if ts == [] then []
    else (if ts[0] == "" then [] else [ts[0]]) + NonEmpty(ts[1..])
  }

  lemma {:induction false} NonEmptyAppend(a: seq<string>, b: seq<string>)
    ensures NonEmpty(a + b) == NonEmpty(a) + NonEmpty(b)
  {
    if a == [] {
      assert a + b == b;
    } else {
      assert (a + b)[1..] == a[1..] + b;
      NonEmptyAppend(a[1..], b);
    }
  }

  /** `NonEmpty` keeps no more than it is given, and nothing empty. */
  lemma {:induction false} NonEmptyShape(ts: seq<string>)
    ensures |NonEmpty(ts)| <= |ts|
    ensures forall j :: 0 <= j < |NonEmpty(ts)| ==> NonEmpty(ts)[j] != ""
  {
    if ts != [] {
      NonEmptyShape(ts[1..]);
    }
  }

  /** Taking one more statement adds it if it is not empty. */
  lemma NonEmptyStep(ts: seq<string>, i: nat)
    requires i < |ts|
    ensures NonEmpty(ts[..i + 1]) == NonEmpty(ts[..i]) + (if ts[i] == "" then [] else [ts[i]])
  {
    var a, x := ts[..i], ts[i];
    assert ts[..i + 1] == a + [x];
    NonEmptyAppend(a, [x]);
    assert [x][1..] == [];
  }

  /** The trimmed, non-empty statements of `cqls`, in order: what a lane may send. */
  function Executable(cqls: seq<string>): seq<string>
  {
    NonEmpty(Trimmed(cqls))
  }

  lemma ExecutableAppend(a: seq<string>, b: seq<string>)
    ensures Executable(a + b) == Executable(a) + Executable(b)
  {
    TrimmedAppend(a, b);
    NonEmptyAppend(Trimmed(a), Trimmed(b));
  }

  /** No more statements are sent than the chunk holds, and none of them is empty. */
  lemma ExecutableShape(cqls: seq<string>)
    ensures |Executable(cqls)| <= |cqls|
    ensures forall i :: 0 <= i < |Executable(cqls)| ==> Executable(cqls)[i] != ""
  {
    NonEmptyShape(Trimmed(cqls));
  }

  /** The session accepts every statement of `e`. */
  predicate AllAccepted(e: seq<string>, accepts: string -> bool)
  {
    forall j :: 0 <= j < |e| ==> accepts(e[j])
  }

  lemma AllAcceptedAppend(a: seq<string>, b: seq<string>, accepts: string -> bool)
    ensures AllAccepted(a + b, accepts) <==> AllAccepted(a, accepts) && AllAccepted(b, accepts)
  {
    if AllAccepted(a + b, accepts) {
      forall j | 0 <= j < |a| ensures accepts(a[j]) {
        assert a[j] == (a + b)[j];
      }
      forall j | 0 <= j < |b| ensures accepts(b[j]) {
        assert b[j] == (a + b)[|a| + j];
      }
    }
    if AllAccepted(a, accepts) && AllAccepted(b, accepts) {
      forall j | 0 <= j < |a + b| ensures accepts((a + b)[j]) {
        if j < |a| {
          assert (a + b)[j] == a[j];
        } else {
          assert (a + b)[j] == b[j - |a|];
        }
      }
    }
  }

  /** The index of the first statement of `e` the session rejects, or `|e|` if none. */
  function FirstRejected(e: seq<string>, accepts: string -> bool): (k: nat)
    ensures k <= |e|
    ensures forall j :: 0 <= j < k ==> accepts(e[j])
    ensures k < |e| ==> !accepts(e[k])
  {
    if e == [] then 0
    else if !accepts(e[0]) then 0
    else 1 + FirstRejected(e[1..], accepts)
  }

  /**
   * The lane over statements `ts` already trimmed, one statement at a time:
   * an empty one is skipped; any other is sent; a rejected one ends the lane;
   * after an accepted one the stop signal is consulted.
   */
  function Run(ts: seq<string>, accepts: string -> bool, stop: bool): LaneTrace
  {
    if ts == [] then LaneTrace([], Completed)
    else
      var t := ts[0];
      if t == "" then Run(ts[1..], accepts, stop)
      else if !accepts(t) then LaneTrace([t], ExecFailed(t))
      else if stop then LaneTrace([t], Stopped)
      else
        var rest := Run(ts[1..], accepts, stop);
        LaneTrace([t] + rest.sent, rest.outcome)
  }

  /** The lane of a chunk: its statements trimmed, then run. */
  function Lane(cqls: seq<string>, accepts: string -> bool, stop: bool): LaneTrace
  {
    Run(Trimmed(cqls), accepts, stop)
  }

  /**
   * Statement `i` of the trimmed statements, case by case: what the
   * statements up to it may send, and how the run from `i` on relates to the
   * run from `i + 1` on. A skipped statement and an accepted one with no stop
   * signal let the lane go on; a rejected one, or a stop, ends it there.
   */
  lemma RunCase(ts: seq<string>, i: nat, accepts: string -> bool, stop: bool)
    requires i < |ts|
    ensures var t, p := ts[i], NonEmpty(ts[..i]);
            var here, next := Run(ts[i..], accepts, stop), Run(ts[i + 1..], accepts, stop);
            && (t == "" ==> NonEmpty(ts[..i + 1]) == p && here == next)
            && (t != "" ==> NonEmpty(ts[..i + 1]) == p + [t])
            && (t != "" && !accepts(t) ==> here == LaneTrace([t], ExecFailed(t)))
            && (t != "" && accepts(t) && stop ==> here == LaneTrace([t], Stopped))
            && (t != "" && accepts(t) && !stop ==>
                  p + here.sent == (p + [t]) + next.sent && here.outcome == next.outcome)
  {
    NonEmptyStep(ts, i);
    assert ts[i..][1..] == ts[i + 1..];
    var t, p, next := ts[i], NonEmpty(ts[..i]), Run(ts[i + 1..], accepts, stop).sent;
    if t != "" {
      assert (p + [t]) + next == p + ([t] + next);
    }
  }

  /**
   * The run, stated on its non-empty statements `e` as a whole: with no stop
   * it sends them up to and including the first rejected one; with the stop
   * signal set it sends the first one only.
   */
  function ExpectedRun(ts: seq<string>, accepts: string -> bool, stop: bool): LaneTrace
  {
    var e := NonEmpty(ts);
    var k := FirstRejected(e, accepts);
    if e == [] then LaneTrace([], Completed)
    else if stop then LaneTrace([e[0]], if accepts(e[0]) then Stopped else ExecFailed(e[0]))
    else if k < |e| then LaneTrace(e[..k + 1], ExecFailed(e[k]))
    else LaneTrace(e, Completed)
  }

  /** The statement-by-statement run and the one stated on the whole agree. */
  lemma {:induction false} RunMatchesExpected(ts: seq<string>, accepts: string -> bool, stop: bool)
    ensures Run(ts, accepts, stop) == ExpectedRun(ts, accepts, stop)
  {
    if ts != [] {
      var t := ts[0];
      var e, e' := NonEmpty(ts), NonEmpty(ts[1..]);
      RunMatchesExpected(ts[1..], accepts, stop);
      if t != "" {
        assert e == [t] + e';
        assert e[0] == t && e[..1] == [t];
        if accepts(t) && !stop {
          var k' := FirstRejected(e', accepts);
          assert e[1..] == e';
          assert FirstRejected(e, accepts) == 1 + k';
          if k' < |e'| {
            assert e[..k' + 2] == [t] + e'[..k' + 1];
          }
        }
      } else {
        assert e == e';
      }
    }
  }

  /**
   * A lane sends a prefix of its executable statements, all accepted but
   * perhaps the last; it completes exactly when every one of them is
   * accepted and no stop signal is set for a statement that was sent, and
   * then it has sent them all; a failure names the last statement sent,
   * which was rejected; a stop comes after exactly one accepted statement.
   */
  lemma LaneSpec(cqls: seq<string>, accepts: string -> bool, stop: bool)
    ensures var t := Lane(cqls, accepts, stop);
            var e := Executable(cqls);
            && t.sent <= e
            && (forall j :: 0 <= j < |t.sent| - 1 ==> accepts(t.sent[j]))
            && (t.outcome == Completed <==> AllAccepted(e, accepts) && (stop ==> e == []))
            && (t.outcome == Completed ==> t.sent == e)
            && (t.outcome.ExecFailed? ==>
                  |t.sent| > 0 && t.outcome.cql == t.sent[|t.sent| - 1] && !accepts(t.outcome.cql))
            && (t.outcome == Stopped ==> stop && |t.sent| == 1 && accepts(t.sent[0]))
            && (stop && |e| > 0 ==> t.sent == [e[0]])
  {
    RunMatchesExpected(Trimmed(cqls), accepts, stop);
  }

  /**
   * `execCQLs`: trims each statement of the chunk, skips the empty ones and
   * executes the others in order; returns the first failure, or `Stopped`
   * when the stop signal is set after a successful statement. The thread
   * number only appears in log lines and is left out.
   */
  method ExecCQLs(sess: Session, cqls: seq<string>, stop: bool) returns (outcome: LaneOutcome)
    modifies sess
    ensures sess.sent == old(sess.sent) + Lane(cqls, sess.accepts, stop).sent
    ensures outcome == Lane(cqls, sess.accepts, stop).outcome
  {
    ghost var start, ts := sess.sent, Trimmed(cqls);
    ghost var whole := Run(ts, sess.accepts, stop);
    for i := 0 to |cqls|
      invariant sess.sent == start + NonEmpty(ts[..i])
      invariant whole.sent == NonEmpty(ts[..i]) + Run(ts[i..], sess.accepts, stop).sent
      invariant whole.outcome == Run(ts[i..], sess.accepts, stop).outcome
    {
      RunCase(ts, i, sess.accepts, stop);
      var cql := TrimCQL(cqls[i]);
      assert cql == ts[i];
      if cql == "" {
        continue;
      }
      ghost var p := NonEmpty(ts[..i]);
      var ok := sess.Exec(cql);
      assert sess.sent == start + (p + [cql]);
      if !ok {
        return ExecFailed(cql);
      }
      if stop {
        return Stopped;
      }
    }
    assert ts[|cqls|..] == [];
    return Completed;
  }

  /**
   * Without a stop signal a lane fails exactly when one of its executable
   * statements is rejected, and then with the first one.
   */
  lemma LaneFirstRejected(cqls: seq<string>, accepts: string -> bool)
    ensures var e := Executable(cqls);
            var k := FirstRejected(e, accepts);
            && (AllAccepted(e, accepts) <==> k == |e|)
            && Lane(cqls, accepts, false).outcome == if k < |e| then ExecFailed(e[k]) else Completed
  {
    RunMatchesExpected(Trimmed(cqls), accepts, false);
  }

  /**
   * A lane that starts with the stop signal already set still sends its
   * first executable statement; if that succeeds it stops with nothing more
   * sent.
   */
  lemma LaneStopAlreadySet(cqls: seq<string>, accepts: string -> bool)
    requires |Executable(cqls)| > 0 && accepts(Executable(cqls)[0])
    ensures Lane(cqls, accepts, true) == LaneTrace([Executable(cqls)[0]], Stopped)
  {
    RunMatchesExpected(Trimmed(cqls), accepts, true);
  }

  /**
   * Of the statements "X", "", " " and "Y" in one lane, the empty one is
   * skipped but the blank one is sent: only line breaks are trimmed.
   */
  lemma LaneSendsBlank(accepts: string -> bool)
    requires accepts("X") && accepts(" ") && accepts("Y")
    ensures Lane(["X", "", " ", "Y"], accepts, false) == LaneTrace(["X", " ", "Y"], Completed)
  {
    var ts := Trimmed(["X", "", " ", "Y"]);
    TrimCQLKeeps("X");
    TrimCQLKeeps(" ");
    TrimCQLKeeps("Y");
    TrimCQLKeeps("");
    assert ts == ["X", "", " ", "Y"];
    assert ts[1..] == ["", " ", "Y"] && ts[1..][1..] == [" ", "Y"] && ts[1..][1..][1..] == ["Y"];
  }
}
