/** Laws of the step-status table: what Put and the sweeps do to single entries,
    to the list of names and to the tallies. */
module StatusTable {
  import opened StepGraph
  import opened RunModel

  lemma {:induction false} PutGet(ss: seq<StepStatus>, e: StepStatus, n: string)
    ensures Get(Put(ss, e), n) == if n == e.name then e else Get(ss, n)
  {
    if ss != [] && ss[0].name != e.name { PutGet(ss[1..], e, n); }
  }

  lemma {:induction false} PutNames(ss: seq<StepStatus>, e: StepStatus)
    ensures EntryNames(Put(ss, e)) == if Has(ss, e.name) then EntryNames(ss) else EntryNames(ss) + [e.name]
  {
    if ss != [] && ss[0].name != e.name { PutNames(ss[1..], e); }
  }

  lemma {:induction false} PutCount(t: Tally, ss: seq<StepStatus>, e: StepStatus)
    requires !Counts(t, Fresh(e.name))
    ensures Count(t, Put(ss, e)) == Count(t, ss) - One(t, Get(ss, e.name)) + One(t, e)
  {
    if ss != [] && ss[0].name != e.name { PutCount(t, ss[1..], e); }
  }

  lemma {:induction false} NamesAt(ss: seq<StepStatus>)
    ensures |EntryNames(ss)| == |ss| && forall i :: 0 <= i < |ss| ==> EntryNames(ss)[i] == ss[i].name
  {
    if ss != [] { NamesAt(ss[1..]); }
  }

  lemma {:induction false} GetAt(ss: seq<StepStatus>, i: nat)
    requires i < |ss| && Distinct(EntryNames(ss))
    ensures Get(ss, ss[i].name) == ss[i] && Has(ss, ss[i].name)
  {
    NamesAt(ss);
    if i > 0 {
      assert EntryNames(ss)[0] != EntryNames(ss)[i];
      assert EntryNames(ss[1..]) == EntryNames(ss)[1..];
      GetAt(ss[1..], i - 1);
    }
    assert EntryNames(ss)[i] == ss[i].name;
  }

  lemma {:induction false} GetSome(ss: seq<StepStatus>, n: string) returns (i: nat)
    requires Has(ss, n)
    ensures i < |ss| && ss[i] == Get(ss, n)
  {
    if ss[0].name == n { i := 0; } else { i := GetSome(ss[1..], n); i := i + 1; }
  }

  lemma {:induction false} GetNone(ss: seq<StepStatus>, n: string)
    requires !Has(ss, n)
    ensures Get(ss, n) == Fresh(n)
  {
    if ss != [] {
      assert ss[0].name in EntryNames(ss);
      forall x | x in EntryNames(ss[1..]) ensures x in EntryNames(ss) { }
      GetNone(ss[1..], n);
    }
  }

  /** A step that has left the unset phase has an entry. */
  lemma StartedHas(ss: seq<StepStatus>, n: string)
    ensures PhaseOf(ss, n) != Unset ==> Has(ss, n)
  {
    if !Has(ss, n) { GetNone(ss, n); }
  }

  lemma {:induction false} SweepGet(sw: Sweep, ss: seq<StepStatus>, n: string)
    ensures Get(sw.All(ss), n) == if Has(ss, n) then sw.Apply(Get(ss, n)) else Fresh(n)
  {
    if ss != [] { SweepGet(sw, ss[1..], n); }
  }

  lemma {:induction false} SweepNames(sw: Sweep, ss: seq<StepStatus>)
    ensures EntryNames(sw.All(ss)) == EntryNames(ss)
  {
    if ss != [] { SweepNames(sw, ss[1..]); }
  }

  /** A sweep that does not move an entry across a tally leaves the tally alone. */
  lemma {:induction false} SweepCount(sw: Sweep, t: Tally, ss: seq<StepStatus>)
    requires forall i :: 0 <= i < |ss| ==> (Counts(t, sw.Apply(ss[i])) <==> Counts(t, ss[i]))
    ensures Count(t, sw.All(ss)) == Count(t, ss)
  {
    if ss != [] { SweepCount(sw, t, ss[1..]); }
  }

  /** Only the job sync makes a step fail. */
  lemma SweepKeepsFailed(sw: Sweep, ss: seq<StepStatus>)
    requires !sw.SyncJobs?
    ensures Count(FailedTally, sw.All(ss)) == Count(FailedTally, ss)
    ensures Count(DeniedTally, sw.All(ss)) == Count(DeniedTally, ss)
  {
    hide Count, Sweep.All;
    SweepCount(sw, FailedTally, ss);
    SweepCount(sw, DeniedTally, ss);
  }

  lemma {:induction false} CountBounds(ss: seq<StepStatus>)
    ensures Count(DoneTally, ss) + Count(FailedTally, ss) <= |ss|
    ensures Count(DeniedTally, ss) <= Count(FailedTally, ss)
    ensures Count(DoneTally, ss) + Count(FailedTally, ss) == |ss| <==> forall i :: 0 <= i < |ss| ==>
      IsFinished(ss[i].phase)
  {
    if ss != [] {
      CountBounds(ss[1..]);
      assert (forall i :: 0 <= i < |ss| ==> IsFinished(ss[i].phase)) <==>
        IsFinished(ss[0].phase) && forall i :: 0 <= i < |ss[1..]| ==> IsFinished(ss[1..][i].phase) by {
        assert forall i :: 0 < i < |ss| ==> ss[i] == ss[1..][i - 1];
      }
    }
  }

  lemma {:induction false} CountZero(t: Tally, ss: seq<StepStatus>)
    ensures Count(t, ss) == 0 <==> forall i :: 0 <= i < |ss| ==> !Counts(t, ss[i])
  {
    if ss != [] {
      var rest := ss[1..];
      CountZero(t, rest);
      if Count(t, ss) == 0 {
        forall i | 0 <= i < |ss| ensures !Counts(t, ss[i]) {
          if i > 0 { assert !Counts(t, rest[i - 1]); }
        }
      } else if !Counts(t, ss[0]) {
        var i :| 0 <= i < |rest| && Counts(t, rest[i]);
        assert Counts(t, ss[i + 1]);
      }
    }
  }

  predicate Tallied(t: Tally, ss: seq<StepStatus>, n: string) {
    Counts(t, Get(ss, n))
  }

  /** Tallies read entry by entry, through the step names. */
  lemma CountZeroByName(t: Tally, ss: seq<StepStatus>)
    requires Distinct(EntryNames(ss)) && !Counts(t, Fresh(""))
    ensures Count(t, ss) == 0 <==> forall n :: !Tallied(t, ss, n)
  {
    CountZero(t, ss);
    if Count(t, ss) == 0 {
      forall n ensures !Tallied(t, ss, n) {
        if Has(ss, n) { var i := GetSome(ss, n); } else { GetNone(ss, n); }
      }
    } else {
      var i :| 0 <= i < |ss| && Counts(t, ss[i]);
      GetAt(ss, i);
      assert Tallied(t, ss, ss[i].name);
    }
  }
}
