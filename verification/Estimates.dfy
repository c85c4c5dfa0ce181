/** The timeout a transaction starts with, from the responses its client has accepted before. */
module Estimates {
  import opened Rto
  import opened Smoothing
  import opened Client
  import opened ClientRuns
  import opened Provenance
  import opened Effort

  /** Time does not go back between calls. */
  ghost predicate InTime(ops: seq<Op>) {
    forall i, j :: 0 <= i < j < |ops| ==> ops[i].now <= ops[j].now
  }

  lemma StepLessons(cfg: Settings, w: World, op: Op)
    ensures
      var lessons := Step(cfg, w, op).lessons;
      lessons == w.lessons
        || (|lessons| == |w.lessons| + 1 && w.lessons <= lessons && lessons[|w.lessons|].now == op.now)
  {
    hide Verdict, Respond, Next, StartTransaction, AllocateHandle, Timeout;
  }

  /** Calls in time teach their lessons in order. */
  lemma {:induction false} LessonsInOrder(cfg: Settings, ops: seq<Op>)
    requires InTime(ops)
    ensures InOrder(Run(cfg, ops).lessons)
    ensures forall i ::
      0 <= i < |Run(cfg, ops).lessons| ==> ops != [] && Run(cfg, ops).lessons[i].now <= ops[|ops| - 1].now
  {
    if ops != [] {
      var n := |ops| - 1;
      assert Run(cfg, ops) == Step(cfg, Run(cfg, ops[..n]), ops[n]);
      hide Run, Step;
      LessonsInOrder(cfg, ops[..n]);
      StepLessons(cfg, Run(cfg, ops[..n]), ops[n]);
    }
  }

  lemma StepBorn(cfg: Settings, w: World, op: Op)
    requires WorldInv(w)
    ensures
      var w' := Step(cfg, w, op);
      && (forall h :: h in w.born && h != w.s.nextHandle ==> h in w'.born && w'.born[h] == w.born[h])
      && (op.Create? && op.tid !in w.s.tidToHandle ==>
            w.s.nextHandle in w'.born && w'.born[w.s.nextHandle] == Birth(op.now, Timeout(cfg.rto, w.s.rto, op.path)))
  {
    KnownHandlesOnly(w.s);
    hide WorldInv, Verdict, Respond, Next, StartTransaction, AllocateHandle, Timeout, Lesson;
  }

  /** A transaction's birth is what its creating call made it. */
  lemma {:induction false} BornByCreate(cfg: Settings, ops: seq<Op>, j: nat, h: Handle)
    requires CreatedBy(cfg, ops, j, h)
    ensures
      var w := Run(cfg, ops);
      h in w.born && w.born[h] == Birth(ops[j].now, Timeout(cfg.rto, Run(cfg, ops[..j]).s.rto, ops[j].path))
  {
    var n := |ops| - 1;
    assert Run(cfg, ops) == Step(cfg, Run(cfg, ops[..n]), ops[n]);
    assert Run(cfg, ops[..j]).s.nextHandle == h;
    hide Run, Step, Timeout;
    RunInv(cfg, ops[..n]);
    StepBorn(cfg, Run(cfg, ops[..n]), ops[n]);
    if j < n {
      CreatedBefore(cfg, ops, j, h);
      BornByCreate(cfg, ops[..n], j, h);
      assert ops[..n][..j] == ops[..j] && ops[..n][j] == ops[j];
      CreatedGrows(cfg, ops, j, h);
      HandlesGrow(cfg, ops, j + 1, n);
    }
  }

  lemma CreatedBefore(cfg: Settings, ops: seq<Op>, j: nat, h: Handle)
    requires CreatedBy(cfg, ops, j, h) && j < |ops| - 1
    ensures CreatedBy(cfg, ops[..|ops| - 1], j, h)
  {
    hide Run;
    assert ops[..|ops| - 1][..j] == ops[..j];
  }

  lemma CreatedGrows(cfg: Settings, ops: seq<Op>, j: nat, h: Handle)
    requires CreatedBy(cfg, ops, j, h)
    ensures Run(cfg, ops[..j + 1]).s.nextHandle == h + 1
  {
    hide Run;
    RunInv(cfg, ops[..j]);
    RunStep(cfg, ops, j);
    StepInherits(cfg, Run(cfg, ops[..j]), ops[j]);
  }

  /** In every run with calls in time, every transaction starts with the estimate over what the
      responses accepted before its creation taught about its path, since that path was last
      forgotten. */
  lemma StartsWithEstimate(cfg: Settings, ops: seq<Op>, j: nat, h: Handle)
    requires cfg.rto.historyDuration >= 0 && InTime(ops) && CreatedBy(cfg, ops, j, h)
    ensures h in Run(cfg, ops).born
    ensures Run(cfg, ops).born[h].rto
            == Estimate(cfg.rto, Since(cfg.rto, Run(cfg, ops[..j]).lessons, ops[j].path))
  {
    assert j <= |ops|;
    hide *;
    BornByCreate(cfg, ops, j, h);
    InTimePrefix(ops, j);
    LessonsInOrder(cfg, ops[..j]);
    CalculatorFollowsLessons(cfg, ops[..j]);
    TimeoutIsEstimate(cfg.rto, Run(cfg, ops[..j]).lessons, ops[j].path);
  }

  /** And that is within 47 microseconds of the timeout of section 2 of RFC 6298 over the same
      lessons, computed without rounding. */
  lemma StartsNearExact(cfg: Settings, ops: seq<Op>, j: nat, h: Handle)
    requires cfg.rto.historyDuration >= 0 && InTime(ops) && CreatedBy(cfg, ops, j, h)
    ensures h in Run(cfg, ops).born
    ensures
      var lessons := Since(cfg.rto, Run(cfg, ops[..j]).lessons, ops[j].path);
      Distance(ExactEstimate(cfg.rto, lessons), Run(cfg, ops).born[h].rto as real) <= 47.0
  {
    assert j < |ops| && ops[j].Create?;
    hide *;
    StartsWithEstimate(cfg, ops, j, h);
    EstimateNear(cfg.rto, Since(cfg.rto, Run(cfg, ops[..j]).lessons, ops[j].path));
  }

  lemma InTimePrefix(ops: seq<Op>, j: nat)
    requires j <= |ops| && InTime(ops)
    ensures InTime(ops[..j])
  {
  }
}
