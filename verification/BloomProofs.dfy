/**
 What every interleaving of inserts, vacuums, cleanups and scans keeps: the index
 holds exactly the tuples inserted and not removed, no page that holds tuples is
 ever reinitialized, and a scan reports every match that stays.
 */
module BloomProofs {
  import BloomPage
  import BloomSignature
  import opened BloomProtocol
  import opened Wrappers

  // ---------------------------------------------------------------- what a step leaves alone

  /** From s to s' only process pid acted: tuples stay where they are or are removed, only pid is newly inserted. */
  ghost predicate Bystander(s: State, s': State, pid: nat) {
    && |s.pages| <= |s'.pages|
    && (forall id :: id in s.inserted ==> id in s'.inserted && s'.inserted[id] == s.inserted[id])
    && (forall id :: id in s'.inserted ==> id in s.inserted || id == pid)
    && s.removed <= s'.removed
    && (forall b: nat, t :: Here(s.pages, b, t) ==> Here(s'.pages, b, t) || t.id in s'.removed)
    && ((s'.meta == s.meta && s'.metaLock == s.metaLock) || s.metaLock.None? || s.metaLock == Some(pid))
  }

  lemma {:induction false} OthersKept(c: Config, s: State, s': State, pid: nat, q: nat)
    requires c.Valid() && Inv(c, s) && Bystander(s, s', pid)
    requires q in s.procs && q != pid
    ensures ProcessInv(c, s', q, s.procs[q])
  {
    assert ProcessInv(c, s, q, s.procs[q]);
    if s.procs[q].Scan? {
      var Scan(query, npages, blk, found, atStart) := s.procs[q];
      forall b: nat, t | (b, t) in atStart ensures StillReported(s', query, npages, blk, found, b, t) {
        assert StillReported(s, query, npages, blk, found, b, t);
      }
    }
  }

  lemma {:induction false} AllKept(c: Config, s: State, s': State, pid: nat)
    requires c.Valid() && Inv(c, s) && Bystander(s, s', pid)
    requires pid in s'.procs && s'.procs == s.procs[pid := s'.procs[pid]]
    requires ProcessInv(c, s', pid, s'.procs[pid])
    ensures forall q :: q in s'.procs ==> ProcessInv(c, s', q, s'.procs[q])
  {
    forall q | q in s'.procs ensures ProcessInv(c, s', q, s'.procs[q]) {
      if q != pid { OthersKept(c, s, s', pid, q); }
    }
  }

  // ---------------------------------------------------------------- inserting

  /** Adding keeps what was there: a page that is reinitialized holds nothing. */
  lemma {:induction false} TryAddAppends(c: Config, s: State, b: nat, t: Tuple)
    requires c.Valid() && PagesInv(c, s) && b < |s.pages|
    ensures var r := TryAdd(c, s.pages[b], t);
            r.Some? ==> r.value.Data? && !r.value.deleted && r.value.tuples == Tuples(s.pages[b]) + [t]
                        && |r.value.tuples| <= c.Capacity()
    ensures Reusable(s.pages[b]) ==> TryAdd(c, s.pages[b], t).Some?
  {
    BloomPage.FitsBelowCapacity(c.size, 0);
  }

  lemma {:induction false} PlacedContent(c: Config, s: State, pid: nat, t: Tuple, blk: nat, page: Page)
    requires c.Valid() && Inv(c, s)
    requires t.id == pid && pid !in s.inserted && 1 <= blk <= |s.pages|
    requires page.Data? && !page.deleted && |page.tuples| <= c.Capacity()
    requires page.tuples == (if blk < |s.pages| then Tuples(s.pages[blk]) else []) + [t]
    ensures var s' := Placed(s, pid, t, blk, page);
            && PagesInv(c, s') && ContentInv(s')
            && (forall b: nat, x :: Here(s.pages, b, x) ==> Here(s'.pages, b, x))
  {
    var s' := Placed(s, pid, t, blk, page);
    forall b: nat, x | Here(s.pages, b, x) ensures Here(s'.pages, b, x) { }
    forall b: nat, x | Here(s'.pages, b, x) ensures Here(s.pages, b, x) || (b == blk && x == t) { }
    forall x | Somewhere(s.pages, x) ensures Somewhere(s'.pages, x) {
      var b: nat :| Here(s.pages, b, x);
      assert Here(s'.pages, b, x);
    }
    assert Here(s'.pages, blk, t) by { assert s'.pages[blk] == page && page.tuples[|page.tuples| - 1] == t; }
    forall b: nat | b < |s'.pages| ensures NoRepeats(Tuples(s'.pages[b])) { PlacedOnce(c, s, pid, t, blk, page, b); }
  }

  lemma {:induction false} PlacedOnce(c: Config, s: State, pid: nat, t: Tuple, blk: nat, page: Page, b: nat)
    requires ContentInv(s) && t.id == pid && pid !in s.inserted && blk <= |s.pages| && page.Data?
    requires page.tuples == (if blk < |s.pages| then Tuples(s.pages[blk]) else []) + [t]
    requires b < |Placed(s, pid, t, blk, page).pages|
    ensures NoRepeats(Tuples(Placed(s, pid, t, blk, page).pages[b]))
  {
    if b == blk && blk < |s.pages| {
      assert !Here(s.pages, blk, t);
      NoRepeatsAppend(Tuples(s.pages[blk]), t);
    }
  }

  lemma NoRepeatsAppend(tuples: seq<Tuple>, t: Tuple)
    requires NoRepeats(tuples) && t !in tuples
    ensures NoRepeats(tuples + [t])
  {
  }

  lemma {:induction false} MetaKept(c: Config, s: State, s': State)
    requires MetaInv(c, s) && s'.meta.notFull == s.meta.notFull && s'.meta.nEnd == s.meta.nEnd
    requires s'.meta.nStart <= s'.meta.nEnd && |s.pages| <= |s'.pages|
    ensures MetaInv(c, s')
  {
    forall i | 0 <= i < s'.meta.nEnd ensures Block(s', s'.meta.notFull[i]) { assert Block(s, s.meta.notFull[i]); }
  }

  lemma {:induction false} AddKeeps(c: Config, s: State, step: Step)
    requires c.Valid() && Inv(c, s) && Enabled(c, s, step) && (step.AddFirst? || step.AddListed?)
    ensures Inv(c, Next(c, s, step))
  {
    var s', pid := Next(c, s, step), step.pid;
    assert ProcessInv(c, s, pid, s.procs[pid]);
    var t := s.procs[pid].t;
    var blk := if step.AddFirst? then s.procs[pid].blk else s.meta.notFull[s.procs[pid].at];
    assert Block(s, blk);
    TryAddAppends(c, s, blk, t);
    var added := TryAdd(c, s.pages[blk], t);
    if added.Some? { PlacedContent(c, s, pid, t, blk, added.value); }
    MetaKept(c, s, s');
    AllKept(c, s, s', pid);
  }

  lemma {:induction false} InsertKeeps(c: Config, s: State, step: Step)
    requires c.Valid() && Inv(c, s) && Enabled(c, s, step)
    requires step.ReadMeta? || step.LockMeta? || step.GiveUpList? || step.AddFirst? || step.AddListed?
    ensures Inv(c, Next(c, s, step))
  {
    if step.AddFirst? || step.AddListed? {
      AddKeeps(c, s, step);
    } else {
      var s', pid := Next(c, s, step), step.pid;
      assert ProcessInv(c, s, pid, s.procs[pid]);
      if step.ReadMeta? && s.meta.nStart < s.meta.nEnd { assert Block(s, s.meta.notFull[s.meta.nStart]); }
      MetaKept(c, s, s');
      AllKept(c, s, s', pid);
    }
  }

  lemma {:induction false} AllocateKeeps(c: Config, s: State, step: Step)
    requires c.Valid() && Inv(c, s) && Enabled(c, s, step)
    requires step.Recycle? || step.Extend?
    ensures Inv(c, Next(c, s, step))
  {
    var s', pid := Next(c, s, step), step.pid;
    assert ProcessInv(c, s, pid, s.procs[pid]);
    BloomPage.FitsBelowCapacity(c.size, 0);
    var t := s.procs[pid].t;
    if step.Extend? || (step.blk < |s.pages| && Reusable(s.pages[step.blk])) {
      var blk := if step.Extend? then |s.pages| else step.blk;
      PlacedContent(c, s, pid, t, blk, Data(false, [t]));
    } else {
      MetaKept(c, s, s');
    }
    AllKept(c, s, s', pid);
  }

  /** An allocation that fails leaves at most an uninitialized page behind. */
  lemma {:induction false} AbortKeeps(c: Config, s: State, pid: nat, extended: bool)
    requires c.Valid() && Inv(c, s) && Enabled(c, s, Abort(pid, extended))
    ensures Inv(c, Next(c, s, Abort(pid, extended)))
  {
    var s' := Next(c, s, Abort(pid, extended));
    assert ProcessInv(c, s, pid, s.procs[pid]);
    forall b: nat, x ensures Here(s'.pages, b, x) <==> Here(s.pages, b, x) { }
    forall x | Somewhere(s.pages, x) ensures Somewhere(s'.pages, x) {
      var b: nat :| Here(s.pages, b, x);
      assert Here(s'.pages, b, x);
    }
    MetaKept(c, s, s');
    AllKept(c, s, s', pid);
  }

  // ---------------------------------------------------------------- vacuum

  lemma {:induction false} AliveIs(tuples: seq<Tuple>, dead: set<nat>, t: Tuple)
    ensures t in Alive(tuples, dead) <==> t in tuples && t.tid !in dead
    ensures NoRepeats(tuples) ==> NoRepeats(Alive(tuples, dead))
  {
    if tuples != [] {
      var n := |tuples| - 1;
      AliveIs(tuples[..n], dead, t);
      AliveIs(tuples[..n], dead, tuples[n]);
      assert tuples == tuples[..n] + [tuples[n]];
      if NoRepeats(tuples) { assert NoRepeats(tuples[..n]); assert tuples[n] !in tuples[..n]; }
    }
  }

  lemma {:induction false} VacuumPageContent(c: Config, s: State, pid: nat)
    requires c.Valid() && Inv(c, s) && Enabled(c, s, VacuumPage(pid))
    requires !Reusable(s.pages[s.procs[pid].blk])
    ensures var s' := Next(c, s, VacuumPage(pid));
            && PagesInv(c, s') && ContentInv(s')
            && (forall b: nat, x :: Here(s.pages, b, x) ==> Here(s'.pages, b, x) || x.id in s'.removed)
  {
    var s' := Next(c, s, VacuumPage(pid));
    var dead, blk := s.procs[pid].dead, s.procs[pid].blk;
    assert ProcessInv(c, s, pid, s.procs[pid]);
    var before := s.pages[blk].tuples;
    forall b: nat, x ensures Here(s'.pages, b, x) <==> Here(s.pages, b, x) && (b == blk ==> x.tid !in dead) { AliveIs(before, dead, x); }
    forall b: nat, x | Here(s.pages, b, x) ensures x.id in s'.removed <==> (b == blk && x.tid in dead) {
      if b == blk && x.tid in dead {
        var i :| 0 <= i < |before| && before[i] == x;
      } else if x.id in DeadIds(before, dead) {
        var i :| 0 <= i < |before| && before[i].tid in dead && before[i].id == x.id;
        assert Here(s.pages, blk, before[i]);
      }
    }
    RemovedWereInserted(s, blk, dead);
    forall b: nat | b < |s'.pages| ensures NoRepeats(Tuples(s'.pages[b])) {
      assert NoRepeats(Tuples(s.pages[b]));
      if b == blk && before != [] { AliveIs(before, dead, before[0]); }
    }
    forall id | id in s'.inserted && id !in s'.removed ensures Somewhere(s'.pages, s'.inserted[id]) {
      assert Somewhere(s.pages, s.inserted[id]);
      var b: nat :| Here(s.pages, b, s.inserted[id]);
      assert Here(s'.pages, b, s.inserted[id]);
    }
  }

  lemma {:induction false} RemovedWereInserted(s: State, blk: nat, dead: set<nat>)
    requires ContentInv(s) && blk < |s.pages| && s.pages[blk].Data?
    ensures forall id :: id in DeadIds(s.pages[blk].tuples, dead) ==> id in s.inserted
  {
    forall i | 0 <= i < |s.pages[blk].tuples| ensures s.pages[blk].tuples[i].id in s.inserted {
      assert Here(s.pages, blk, s.pages[blk].tuples[i]);
    }
  }

  lemma {:induction false} VacuumPageKeeps(c: Config, s: State, pid: nat)
    requires c.Valid() && Inv(c, s) && Enabled(c, s, VacuumPage(pid))
    ensures Inv(c, Next(c, s, VacuumPage(pid)))
  {
    var s' := Next(c, s, VacuumPage(pid));
    assert ProcessInv(c, s, pid, s.procs[pid]);
    if !Reusable(s.pages[s.procs[pid].blk]) { VacuumPageContent(c, s, pid); }
    MetaKept(c, s, s');
    AllKept(c, s, s', pid);
  }

  lemma {:induction false} VacuumKeeps(c: Config, s: State, step: Step)
    requires c.Valid() && Inv(c, s) && Enabled(c, s, step)
    requires step.VacuumPage? || step.VacuumList? || step.CleanPage?
    ensures Inv(c, Next(c, s, step))
  {
    if step.VacuumPage? {
      VacuumPageKeeps(c, s, step.pid);
    } else {
      var s', pid := Next(c, s, step), step.pid;
      assert ProcessInv(c, s, pid, s.procs[pid]);
      MetaKept(c, s, s');
      AllKept(c, s, s', pid);
    }
  }

  lemma {:induction false} RewriteKeeps(c: Config, s: State, pid: nat)
    requires c.Valid() && Inv(c, s) && Enabled(c, s, RewriteMeta(pid))
    ensures Inv(c, Next(c, s, RewriteMeta(pid)))
  {
    var s' := Next(c, s, RewriteMeta(pid));
    assert ProcessInv(c, s, pid, s.procs[pid]);
    forall i | 0 <= i < s'.meta.nEnd ensures Block(s', s'.meta.notFull[i]) { assert Block(s, s.procs[pid].listed[i]); }
    AllKept(c, s, s', pid);
  }

  // ---------------------------------------------------------------- scans

  lemma {:induction false} ScanKeeps(c: Config, s: State, pid: nat)
    requires c.Valid() && Inv(c, s) && Enabled(c, s, ScanPage(pid))
    ensures Inv(c, Next(c, s, ScanPage(pid)))
  {
    var s' := Next(c, s, ScanPage(pid));
    var Scan(query, npages, blk, found, atStart) := s.procs[pid];
    var found' := s'.procs[pid].found;
    assert ProcessInv(c, s, pid, s.procs[pid]);
    forall b: nat, t | (b, t) in atStart ensures StillReported(s', query, npages, blk + 1, found', b, t) {
      assert StillReported(s, query, npages, blk, found, b, t);
      if b == blk && t.id !in s.removed {
        assert Here(s.pages, b, t);
        var i :| 0 <= i < |Tuples(s.pages[b])| && Tuples(s.pages[b])[i] == t;
      }
    }
    MetaKept(c, s, s');
    AllKept(c, s, s', pid);
  }

  lemma {:induction false} BeginKeeps(c: Config, s: State, pid: nat, p: Process)
    requires c.Valid() && Inv(c, s) && Enabled(c, s, Begin(pid, p))
    ensures Inv(c, Next(c, s, Begin(pid, p)))
  {
    var s' := Next(c, s, Begin(pid, p));
    if p.Scan? {
      forall b: nat, t | (b, t) in p.atStart ensures StillReported(s', p.query, p.npages, p.blk, p.found, b, t) {
        assert Here(s.pages, b, t);
      }
    }
    MetaKept(c, s, s');
    AllKept(c, s, s', pid);
  }

  lemma {:induction false} FsmKeeps(c: Config, s: State, step: Step)
    requires c.Valid() && Inv(c, s) && Enabled(c, s, step)
    requires step.FsmForgets? || step.FsmInvents?
    ensures Inv(c, Next(c, s, step))
  {
    var s' := Next(c, s, step);
    MetaKept(c, s, s');
    forall q | q in s'.procs ensures ProcessInv(c, s', q, s'.procs[q]) {
      OthersKept(c, s, s', q + 1, q);
    }
  }

  /** Every step of every process keeps the invariant. */
  lemma {:induction false} StepKeeps(c: Config, s: State, step: Step)
    requires c.Valid() && Inv(c, s) && Enabled(c, s, step)
    ensures Inv(c, Next(c, s, step))
  {
    match step
    case Recycle(_, _) => AllocateKeeps(c, s, step);
    case Extend(_) => AllocateKeeps(c, s, step);
    case Abort(pid, extended) => AbortKeeps(c, s, pid, extended);
    case VacuumPage(_) => VacuumKeeps(c, s, step);
    case VacuumList(_) => VacuumKeeps(c, s, step);
    case CleanPage(_) => VacuumKeeps(c, s, step);
    case RewriteMeta(pid) => RewriteKeeps(c, s, pid);
    case ScanPage(pid) => ScanKeeps(c, s, pid);
    case Begin(pid, p) => BeginKeeps(c, s, pid, p);
    case FsmForgets(_) => FsmKeeps(c, s, step);
    case FsmInvents(_) => FsmKeeps(c, s, step);
    case _ => InsertKeeps(c, s, step);
  }

  // ---------------------------------------------------------------- whole runs

  /** An index as built: its tuples on pages, nothing running, an empty list of pages with room. */
  ghost predicate Built(c: Config, s: State)
    requires c.Valid()
  {
    && PagesInv(c, s) && ContentInv(s) && s.removed == {}
    && s.meta.nStart == 0 && s.meta.nEnd == 0 && |s.meta.notFull| == c.listMax
    && s.procs == map[] && s.fsm == {} && s.metaLock.None?
  }

  ghost predicate Runs(c: Config, s: State, steps: seq<Step>, end: State)
    requires c.Valid()
    decreases |steps|
  {
    if steps == [] then s == end
    else Enabled(c, s, steps[0]) && Runs(c, Next(c, s, steps[0]), steps[1..], end)
  }

  lemma {:induction false} RunKeeps(c: Config, s: State, steps: seq<Step>, end: State)
    requires c.Valid() && Inv(c, s) && Runs(c, s, steps, end)
    ensures Inv(c, end)
    decreases |steps|
  {
    if steps != [] {
      StepKeeps(c, s, steps[0]);
      RunKeeps(c, Next(c, s, steps[0]), steps[1..], end);
    }
  }

  /** The index agrees with the plain set of tuples inserted and not removed, after every run. */
  lemma {:induction false} IndexIsInsertedMinusRemoved(c: Config, s: State, steps: seq<Step>, end: State, t: Tuple)
    requires c.Valid() && Built(c, s) && Runs(c, s, steps, end)
    ensures Somewhere(end.pages, t) <==> t.id in end.inserted && end.inserted[t.id] == t && t.id !in end.removed
    ensures forall b: nat, b': nat :: Here(end.pages, b, t) && Here(end.pages, b', t) ==> b == b'
    ensures forall b :: 0 <= b < |end.pages| ==> NoRepeats(Tuples(end.pages[b]))
    ensures end.meta.nStart <= end.meta.nEnd <= c.listMax == |end.meta.notFull|
    ensures forall i :: 0 <= i < end.meta.nEnd ==> 1 <= end.meta.notFull[i] < |end.pages|
  {
    RunKeeps(c, s, steps, end);
    if Somewhere(end.pages, t) { var b: nat :| Here(end.pages, b, t); }
    forall i | 0 <= i < end.meta.nEnd ensures 1 <= end.meta.notFull[i] < |end.pages| {
      assert Block(end, end.meta.notFull[i]);
    }
  }

  /** Only vacuum takes tuples off a page, and only dead ones: no page is reinitialized over its tuples. */
  lemma {:induction false} OnlyVacuumRemoves(c: Config, s: State, step: Step, b: nat, t: Tuple)
    requires c.Valid() && Inv(c, s) && Enabled(c, s, step) && Here(s.pages, b, t)
    ensures Here(Next(c, s, step).pages, b, t)
      || (step.VacuumPage? && s.procs[step.pid].blk == b && t.tid in s.procs[step.pid].dead)
  {
    match step
    case AddFirst(pid) =>
      assert ProcessInv(c, s, pid, s.procs[pid]);
      TryAddAppends(c, s, s.procs[pid].blk, s.procs[pid].t);
    case AddListed(pid) =>
      TryAddAppends(c, s, s.meta.notFull[s.procs[pid].at], s.procs[pid].t);
    case VacuumPage(pid) =>
      var blk := s.procs[pid].blk;
      if b == blk && !Reusable(s.pages[blk]) { AliveIs(s.pages[blk].tuples, s.procs[pid].dead, t); }
    case _ =>
  }

  /** A tuple stays on the block it was put on for as long as it is in the index. */
  lemma {:induction false} TuplesNeverMove(c: Config, s: State, steps: seq<Step>, end: State, b: nat, b': nat, t: Tuple)
    requires c.Valid() && Inv(c, s) && Runs(c, s, steps, end)
    requires Here(s.pages, b, t) && Here(end.pages, b', t)
    ensures b == b'
    decreases |steps|
  {
    if steps != [] {
      var s' := Next(c, s, steps[0]);
      StepKeeps(c, s, steps[0]);
      OnlyVacuumRemoves(c, s, steps[0], b, t);
      RunKeeps(c, s', steps[1..], end);
      if Here(s'.pages, b, t) {
        TuplesNeverMove(c, s', steps[1..], end, b, b', t);
      } else {
        RemovedForGood(c, s, steps[0], b, t);
        StaysRemoved(c, s', steps[1..], end, t.id);
      }
    }
  }

  lemma {:induction false} RemovedForGood(c: Config, s: State, step: Step, b: nat, t: Tuple)
    requires c.Valid() && Inv(c, s) && Enabled(c, s, step) && Here(s.pages, b, t)
    requires !Here(Next(c, s, step).pages, b, t)
    ensures t.id in Next(c, s, step).removed
  {
    OnlyVacuumRemoves(c, s, step, b, t);
    var tuples := Tuples(s.pages[b]);
    var i :| 0 <= i < |tuples| && tuples[i] == t;
    assert tuples[i].id in DeadIds(tuples, s.procs[step.pid].dead);
  }

  lemma {:induction false} StaysRemoved(c: Config, s: State, steps: seq<Step>, end: State, id: nat)
    requires c.Valid() && Runs(c, s, steps, end) && id in s.removed
    ensures id in end.removed
    decreases |steps|
  {
    if steps != [] { StaysRemoved(c, Next(c, s, steps[0]), steps[1..], end, id); }
  }

  /** A finished scan has reported every match that was there when it began and is there still. */
  lemma {:induction false} ScanReportsAll(c: Config, s: State, steps: seq<Step>, end: State, pid: nat, b: nat, t: Tuple)
    requires c.Valid() && Built(c, s) && Runs(c, s, steps, end)
    requires pid in end.procs && end.procs[pid].Scan? && end.procs[pid].blk >= end.procs[pid].npages
    requires (b, t) in end.procs[pid].atStart && Somewhere(end.pages, t)
    requires BloomSignature.Matches(t.sign, end.procs[pid].query)
    ensures t.tid in end.procs[pid].found
  {
    RunKeeps(c, s, steps, end);
    var Scan(query, npages, blk, found, atStart) := end.procs[pid];
    assert ProcessInv(c, end, pid, end.procs[pid]);
    assert StillReported(end, query, npages, blk, found, b, t);
    var b': nat :| Here(end.pages, b', t);
  }

  /**
   No false negatives over whole runs: a tuple signed from columns that equal all scan
   keys, in the index from the start of the scan to its end, is reported.
   */
  lemma {:induction false} NoFalseNegatives(c: Config, s: State, steps: seq<Step>, end: State, pid: nat, b: nat, t: Tuple,
                                            o: BloomSignature.Options, cols: BloomSignature.Columns, keys: seq<BloomSignature.ScanKey>)
    requires c.Valid() && Built(c, s) && Runs(c, s, steps, end)
    requires pid in end.procs && end.procs[pid].Scan? && end.procs[pid].blk >= end.procs[pid].npages
    requires (b, t) in end.procs[pid].atStart && Somewhere(end.pages, t)
    requires o.Valid() && |cols| <= BloomSignature.MAX_COLUMNS && BloomSignature.OnColumns(keys)
    requires t.sign == BloomSignature.TupleSign(o, cols)
    requires BloomSignature.QuerySign(o, keys) == Some(end.procs[pid].query)
    requires forall k :: 0 <= k < |keys| ==>
      keys[k].attno < |cols| && keys[k].hash.Some? && cols[keys[k].attno] == keys[k].hash
    ensures t.tid in end.procs[pid].found
  {
    BloomSignature.EqualColumnsMatch(o, cols, keys);
    ScanReportsAll(c, s, steps, end, pid, b, t);
  }
}
