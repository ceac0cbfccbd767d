/** Visitor timelines and the reference definition of a session: a visitor's committed touches,
    cut wherever the gap to the previous touch reaches the timeout. Nothing here mentions the
    sessions table; the table is proved to agree with it in `Sessions`. */
module Timeline {
  import opened Events

  /** One committed session transaction: the event it served, the domain id it was given, its
      CURRENT_TIMESTAMP in microseconds and the session id it created or updated. */
  datatype Touch = Touch(event: Event, domainId: nat, at: int, session: nat)

  function Last<T>(s: seq<T>): T
    requires s != []
  {
    s[|s| - 1]
  }

  function Front<T>(s: seq<T>): seq<T>
    requires s != []
  {
    s[..|s| - 1]
  }

  /** The touches of one visitor, in log order. */
  function TouchesOf(log: seq<Touch>, visitor: string): (tl: seq<Touch>) {
    if log == [] then []
    else if Last(log).event.visitorId == visitor then TouchesOf(Front(log), visitor) + [Last(log)]
    else TouchesOf(Front(log), visitor)
  }

  ghost predicate Ordered(log: seq<Touch>) {
    forall i, j | 0 <= i <= j < |log| :: log[i].at <= log[j].at
  }

  /** No gap between neighbours reaches the timeout. */
  ghost predicate Unbroken(tl: seq<Touch>, timeout: int) {
    forall i | 0 < i < |tl| :: tl[i].at - tl[i - 1].at < timeout
  }

  /** Puts `t` before the first run: as a run of its own if `cut`, else as that run's new head. */
  function Prepend(t: Touch, runs: seq<seq<Touch>>, cut: bool): seq<seq<Touch>>
    requires !cut ==> runs != []
  {
    if cut then [[t]] + runs else [[t] + runs[0]] + runs[1..]
  }

  /** Adds touches at the end of the last run. */
  function Extend(runs: seq<seq<Touch>>, more: seq<Touch>): seq<seq<Touch>>
    requires runs != []
  {
    Front(runs) + [Last(runs) + more]
  }

  /** The timeline cut at its gaps of at least `timeout`. */
  function Runs(tl: seq<Touch>, timeout: int): (runs: seq<seq<Touch>>)
    ensures tl != [] ==> runs != []
    ensures forall i | 0 <= i < |runs| :: runs[i] != []
    ensures tl != [] ==> runs[0][0] == tl[0]
  {
    if tl == [] then []
    else Prepend(tl[0], Runs(tl[1..], timeout), |tl| == 1 || tl[1].at - tl[0].at >= timeout)
  }

  function Flatten(runs: seq<seq<Touch>>): seq<Touch> {
    if runs == [] then [] else runs[0] + Flatten(runs[1..])
  }

  /** What being the cut of `tl` means, without saying how to compute it. */
  ghost predicate IsSplit(runs: seq<seq<Touch>>, tl: seq<Touch>, timeout: int) {
    && Flatten(runs) == tl
    && (forall i | 0 <= i < |runs| :: runs[i] != [] && Unbroken(runs[i], timeout))
    && (forall i | 0 < i < |runs| :: runs[i][0].at - Last(runs[i - 1]).at >= timeout)
  }

  lemma {:induction false} CutSplits(t: Touch, runs: seq<seq<Touch>>, tl: seq<Touch>, timeout: int)
    requires IsSplit(runs, tl, timeout) && (runs != [] ==> runs[0][0].at - t.at >= timeout)
    ensures IsSplit(Prepend(t, runs, true), [t] + tl, timeout)
  {
    var more := Prepend(t, runs, true);
    assert more[1..] == runs;
    forall i | 0 < i < |more| ensures more[i][0].at - Last(more[i - 1]).at >= timeout {
      assert i > 1 ==> more[i - 1] == runs[i - 2];
    }
  }

  lemma {:induction false} JoinSplits(t: Touch, runs: seq<seq<Touch>>, tl: seq<Touch>, timeout: int)
    requires IsSplit(runs, tl, timeout) && runs != [] && runs[0][0].at - t.at < timeout
    ensures IsSplit(Prepend(t, runs, false), [t] + tl, timeout)
  {
    var more := Prepend(t, runs, false);
    assert more[1..] == runs[1..];
    assert ([t] + runs[0]) + Flatten(runs[1..]) == [t] + Flatten(runs);
    assert Last(more[0]) == Last(runs[0]);
    forall i | 0 < i < |more| ensures more[i][0].at - Last(more[i - 1]).at >= timeout {
      assert more[i] == runs[i];
    }
  }

  lemma {:induction false} RunsIsSplit(tl: seq<Touch>, timeout: int)
    ensures IsSplit(Runs(tl, timeout), tl, timeout)
  {
    if tl != [] {
      RunsIsSplit(tl[1..], timeout);
      assert [tl[0]] + tl[1..] == tl;
      if |tl| == 1 || tl[1].at - tl[0].at >= timeout {
        CutSplits(tl[0], Runs(tl[1..], timeout), tl[1..], timeout);
      } else {
        JoinSplits(tl[0], Runs(tl[1..], timeout), tl[1..], timeout);
      }
    }
  }

  lemma {:induction false} SplitOfTail(runs: seq<seq<Touch>>, tl: seq<Touch>, timeout: int)
    requires IsSplit(runs, tl, timeout) && tl != []
    ensures runs[0] != [] && tl[0] == runs[0][0]
    ensures |runs[0]| == 1 ==> IsSplit(runs[1..], tl[1..], timeout)
    ensures |runs[0]| == 1 && |tl| > 1 ==> tl[1].at - tl[0].at >= timeout
    ensures |runs[0]| > 1 ==> IsSplit([runs[0][1..]] + runs[1..], tl[1..], timeout)
    ensures |runs[0]| > 1 ==> |tl| > 1 && tl[1].at - tl[0].at < timeout
  {
    var first := runs[0];
    if |first| == 1 {
      assert tl[1..] == Flatten(runs[1..]);
      assert |tl| > 1 ==> tl[1] == runs[1][0];
    } else {
      var shorter := [first[1..]] + runs[1..];
      assert shorter[1..] == runs[1..];
      assert tl[1..] == Flatten(shorter);
      assert Last(first[1..]) == Last(first) && tl[1] == first[1];
    }
  }

  /** There is exactly one way to cut a timeline at its long gaps, and `Runs` is it. */
  lemma {:induction false} RunsUnique(runs: seq<seq<Touch>>, tl: seq<Touch>, timeout: int)
    ensures IsSplit(runs, tl, timeout) <==> runs == Runs(tl, timeout)
    decreases |tl|
  {
    RunsIsSplit(tl, timeout);
    if IsSplit(runs, tl, timeout) && tl != [] {
      SplitOfTail(runs, tl, timeout);
      if |runs[0]| == 1 {
        RunsUnique(runs[1..], tl[1..], timeout);
        assert runs == [[tl[0]]] + runs[1..];
      } else {
        var shorter := [runs[0][1..]] + runs[1..];
        RunsUnique(shorter, tl[1..], timeout);
        assert [tl[0]] + shorter[0] == runs[0];
        assert runs == [[tl[0]] + shorter[0]] + shorter[1..];
      }
    } else if IsSplit(runs, tl, timeout) {
      assert runs == [];
    }
  }

  lemma {:induction false} PrependExtend(t: Touch, runs: seq<seq<Touch>>, cut: bool, more: seq<Touch>)
    requires runs != []
    ensures Prepend(t, Extend(runs, more), cut) == Extend(Prepend(t, runs, cut), more)
  {
    var longer := Extend(runs, more);
    if !cut {
      if |runs| == 1 {
        assert [t] + longer[0] == ([t] + runs[0]) + more;
      } else {
        assert longer[1..] == Extend(runs[1..], more);
      }
    }
  }

  lemma {:induction false} PrependPush(t: Touch, runs: seq<seq<Touch>>, cut: bool, last: Touch)
    requires runs != []
    ensures Prepend(t, Extend(runs, [last]), cut) == Extend(Prepend(t, runs, cut), [last])
    ensures Prepend(t, runs + [[last]], cut) == Prepend(t, runs, cut) + [[last]]
  {
    PrependExtend(t, runs, cut, [last]);
  }

  /** Appending one touch either extends the last run or starts a new one. */
  lemma {:induction false} RunsSnoc(tl: seq<Touch>, t: Touch, timeout: int)
    ensures Runs(tl + [t], timeout) ==
            if tl == [] || t.at - Last(tl).at >= timeout then Runs(tl, timeout) + [[t]]
            else Extend(Runs(tl, timeout), [t])
  {
    if tl == [] {
      assert [] + [t] == [t] && [t][1..] == [];
    } else {
      assert (tl + [t])[1..] == tl[1..] + [t];
      RunsSnoc(tl[1..], t, timeout);
      if |tl| > 1 {
        assert Last(tl[1..]) == Last(tl);
        PrependPush(tl[0], Runs(tl[1..], timeout), tl[1].at - tl[0].at >= timeout, t);
      }
    }
  }

  lemma {:induction false} LastOfRuns(tl: seq<Touch>, timeout: int)
    requires tl != []
    ensures Last(Last(Runs(tl, timeout))) == Last(tl)
  {
    if |tl| > 1 {
      LastOfRuns(tl[1..], timeout);
    }
  }

  lemma {:induction false} UnbrokenSnoc(tl: seq<Touch>, t: Touch, timeout: int)
    requires tl != []
    ensures Unbroken(tl + [t], timeout) <==> Unbroken(tl, timeout) && t.at - Last(tl).at < timeout
  {
    var longer := tl + [t];
    if Unbroken(longer, timeout) {
      assert longer[|tl|].at - longer[|tl| - 1].at < timeout;
      forall i | 0 < i < |tl| ensures tl[i].at - tl[i - 1].at < timeout {
        assert longer[i].at - longer[i - 1].at < timeout;
      }
    }
  }

  lemma {:induction false} ExtendTwice(runs: seq<seq<Touch>>, a: seq<Touch>, b: seq<Touch>)
    requires runs != []
    ensures Extend(Extend(runs, a), b) == Extend(runs, a + b)
  {
    assert (Last(runs) + a) + b == Last(runs) + (a + b);
  }

  lemma {:induction false} GapSnoc(tl: seq<Touch>, more: seq<Touch>, timeout: int)
    requires tl != [] && more != []
    ensures tl + more == (tl + Front(more)) + [Last(more)]
    ensures Unbroken([Last(tl)] + more, timeout) <==>
            Unbroken([Last(tl)] + Front(more), timeout) && Last(more).at - Last(tl + Front(more)).at < timeout
  {
    var short := [Last(tl)] + Front(more);
    assert [Last(tl)] + more == short + [Last(more)];
    assert Last(short) == Last(tl + Front(more));
    UnbrokenSnoc(short, Last(more), timeout);
  }

  /** A continuation without long gaps lands in the last run as a whole. */
  lemma {:induction false} RunsExtend(tl: seq<Touch>, more: seq<Touch>, timeout: int)
    requires tl != [] && Unbroken([Last(tl)] + more, timeout)
    ensures Runs(tl + more, timeout) == Extend(Runs(tl, timeout), more)
  {
    var runs := Runs(tl, timeout);
    if more == [] {
      assert tl + more == tl && Last(runs) + more == Last(runs);
    } else {
      GapSnoc(tl, more, timeout);
      RunsExtend(tl, Front(more), timeout);
      RunsSnoc(tl + Front(more), Last(more), timeout);
      ExtendTwice(runs, Front(more), [Last(more)]);
      assert Front(more) + [Last(more)] == more;
    }
  }

  /** A continuation never closes a run, and opens none exactly when it has no long gap. */
  lemma {:induction false} RunsCount(tl: seq<Touch>, more: seq<Touch>, timeout: int)
    requires tl != []
    ensures |Runs(tl + more, timeout)| >= |Runs(tl, timeout)|
    ensures Unbroken([Last(tl)] + more, timeout) <==> |Runs(tl + more, timeout)| == |Runs(tl, timeout)|
  {
    if more == [] {
      assert tl + more == tl;
    } else {
      GapSnoc(tl, more, timeout);
      RunsCount(tl, Front(more), timeout);
      RunsSnoc(tl + Front(more), Last(more), timeout);
    }
  }

  lemma {:induction false} TouchesOfConcat(a: seq<Touch>, b: seq<Touch>, visitor: string)
    ensures TouchesOf(a + b, visitor) == TouchesOf(a, visitor) + TouchesOf(b, visitor)
  {
    if b == [] {
      assert a + b == a;
    } else {
      assert Front(a + b) == a + Front(b);
      TouchesOfConcat(a, Front(b), visitor);
    }
  }

  /** Every touch of a timeline is the visitor's own and comes from the log. */
  lemma {:induction false} TouchesOfMembers(log: seq<Touch>, visitor: string)
    ensures forall i | 0 <= i < |TouchesOf(log, visitor)| ::
              TouchesOf(log, visitor)[i].event.visitorId == visitor && TouchesOf(log, visitor)[i] in log
    ensures forall k | 0 <= k < |log| && log[k].event.visitorId == visitor :: log[k] in TouchesOf(log, visitor)
  {
    if log != [] {
      TouchesOfMembers(Front(log), visitor);
    }
  }

  lemma {:induction false} TouchesOfOrdered(log: seq<Touch>, visitor: string)
    requires Ordered(log)
    ensures Ordered(TouchesOf(log, visitor))
  {
    if log != [] {
      TouchesOfOrdered(Front(log), visitor);
      TouchesOfMembers(Front(log), visitor);
    }
  }
}
