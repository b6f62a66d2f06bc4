/**
 The Bloom index as it is used concurrently: inserts that drop and retake the
 metapage lock, vacuums that walk the pages and rewrite the list of pages with room,
 recycling through the free space map, and scans. One step is what happens under
 one stretch of buffer locks; the processes interleave in any way.
 */
module BloomProtocol {
  import BloomPage
  import BloomSignature
  import opened Wrappers

  /** An index tuple. id tells apart the tuples of different inserts; it is not stored. */
  datatype Tuple = Tuple(id: nat, tid: nat, sign: seq<bv16>)

  datatype Page =
    | New                                        // extended but never initialized
    | Data(deleted: bool, tuples: seq<Tuple>)

  /** Where a process is between two stretches of locks. */
  datatype Process =
    | InsertStart(t: Tuple)                      // about to look at the metapage, shared
    | InsertFirst(t: Tuple, blk: nat)            // metapage unlocked, about to try the first page
    | InsertRetry(t: Tuple, tried: Option<nat>)  // about to lock the metapage exclusively
    | InsertList(t: Tuple, at: nat)              // holds the metapage; next list entry to try
    | InsertAllocate(t: Tuple)                   // holds the metapage; list exhausted
    | VacuumPages(dead: set<nat>, npages: nat, blk: nat, listed: seq<nat>)
    | VacuumMeta(listed: seq<nat>)
    | Cleanup(npages: nat, blk: nat)             // records free pages in the free space map
    | Scan(query: seq<bv16>, npages: nat, blk: nat, found: set<nat>, atStart: set<(nat, Tuple)>)
    | Finished

  /** notFullPage with its used part [nStart, nEnd). */
  datatype Meta = Meta(nStart: nat, nEnd: nat, notFull: seq<nat>)

  /**
   Block 0 is the metapage; data pages are blocks 1 and up, so pages[0] is unused.
   History no step reads: inserted and removed, the tuples put in and the ids taken
   out so far, and in a scan atStart, what was on which block when it began.
   */
  datatype State = State(
    meta: Meta,
    pages: seq<Page>,
    fsm: set<nat>,
    procs: map<nat, Process>,
    metaLock: Option<nat>,
    inserted: map<nat, Tuple>,
    removed: set<nat>)

  datatype Config = Config(size: nat, listMax: nat) {
    predicate Valid() {
      8 <= size <= 518 && listMax > 0
    }
    function Capacity(): nat
      requires Valid()
    {
      BloomPage.Capacity(size)
    }
  }

  predicate Reusable(p: Page) {
    p.New? || p.deleted
  }

  function Tuples(p: Page): seq<Tuple> {
    if p.New? then [] else p.tuples
  }

  /** (Re)initialize if new or deleted, then add if it fits; None if it does not. */
  function TryAdd(c: Config, p: Page, t: Tuple): Option<Page>
    requires c.Valid()
  {
    var tuples := if Reusable(p) then [] else p.tuples;
    if |tuples| < c.Capacity() then Some(Data(false, tuples + [t])) else None
  }

  function Alive(tuples: seq<Tuple>, dead: set<nat>): seq<Tuple> {
    BloomPage.Survivors(tuples, (t: Tuple) => t.tid in dead)
  }

  function DeadIds(tuples: seq<Tuple>, dead: set<nat>): set<nat> {
    set i | 0 <= i < |tuples| && tuples[i].tid in dead :: tuples[i].id
  }

  function Matching(tuples: seq<Tuple>, query: seq<bv16>): set<nat> {
    set i | 0 <= i < |tuples| && BloomSignature.Matches(tuples[i].sign, query) :: tuples[i].tid
  }

  ghost predicate Here(pages: seq<Page>, b: nat, t: Tuple) {
    b < |pages| && t in Tuples(pages[b])
  }

  datatype Step =
    | ReadMeta(pid: nat)
    | AddFirst(pid: nat)
    | LockMeta(pid: nat)
    | AddListed(pid: nat)
    | GiveUpList(pid: nat)
    | Recycle(pid: nat, blk: nat)
    | Extend(pid: nat)
    | Abort(pid: nat, extended: bool)    // an error while allocating; the file may have grown
    | VacuumPage(pid: nat)
    | VacuumList(pid: nat)
    | RewriteMeta(pid: nat)
    | CleanPage(pid: nat)
    | ScanPage(pid: nat)
    | Begin(pid: nat, p: Process)
    | FsmForgets(blk: nat)               // the map is only a hint: entries vanish
    | FsmInvents(blk: nat)               // or are stale

  /** A process that may be started now. */
  ghost predicate Startable(s: State, pid: nat, p: Process) {
    && pid !in s.procs
    && match p
       case InsertStart(t) => t.id == pid && pid !in s.inserted
       case VacuumPages(_, npages, blk, listed) => npages == |s.pages| && blk == 1 && listed == []
       case Cleanup(npages, blk) => npages == |s.pages| && blk == 1
       case Scan(_, npages, blk, found, atStart) =>
         && npages == |s.pages| && blk == 1 && found == {}
         && (forall b: nat, t :: (b, t) in atStart <==> Here(s.pages, b, t))
       case _ => false
  }

  ghost predicate Enabled(c: Config, s: State, step: Step)
    requires c.Valid()
  {
    match step
    case ReadMeta(pid) => pid in s.procs && s.procs[pid].InsertStart? && s.metaLock.None?
    case AddFirst(pid) => pid in s.procs && s.procs[pid].InsertFirst? && s.procs[pid].blk < |s.pages|
    case LockMeta(pid) => pid in s.procs && s.procs[pid].InsertRetry? && s.metaLock.None?
    case AddListed(pid) =>
      && pid in s.procs && s.procs[pid].InsertList? && s.procs[pid].at < s.meta.nEnd
      && s.procs[pid].at < |s.meta.notFull| && s.meta.notFull[s.procs[pid].at] < |s.pages|
    case GiveUpList(pid) => pid in s.procs && s.procs[pid].InsertList? && s.procs[pid].at >= s.meta.nEnd
    case Recycle(pid, blk) => pid in s.procs && s.procs[pid].InsertAllocate? && blk in s.fsm
    case Extend(pid) => pid in s.procs && s.procs[pid].InsertAllocate?
    case Abort(pid, _) => pid in s.procs && s.procs[pid].InsertAllocate?
    case VacuumPage(pid) =>
      pid in s.procs && s.procs[pid].VacuumPages? && s.procs[pid].blk < s.procs[pid].npages && s.procs[pid].blk < |s.pages|
    case VacuumList(pid) => pid in s.procs && s.procs[pid].VacuumPages? && s.procs[pid].blk >= s.procs[pid].npages
    case RewriteMeta(pid) => pid in s.procs && s.procs[pid].VacuumMeta? && s.metaLock.None?
    case CleanPage(pid) =>
      pid in s.procs && s.procs[pid].Cleanup? && s.procs[pid].blk < s.procs[pid].npages && s.procs[pid].blk < |s.pages|
    case ScanPage(pid) =>
      pid in s.procs && s.procs[pid].Scan? && s.procs[pid].blk < s.procs[pid].npages && s.procs[pid].blk < |s.pages|
    case Begin(pid, p) => Startable(s, pid, p)
    case FsmForgets(blk) => true
    case FsmInvents(blk) => 1 <= blk < |s.pages|
  }

  /** The tuple of insert pid is on a page now; the insert is over. */
  function Placed(s: State, pid: nat, t: Tuple, blk: nat, page: Page): State
    requires blk <= |s.pages|
  {
    s.(pages := if blk < |s.pages| then s.pages[blk := page] else s.pages + [page],
       procs := s.procs[pid := Finished],
       inserted := s.inserted[t.id := t])
  }

  /** The list reset to one new page. */
  function OnlyPage(m: Meta, blk: nat): Meta {
    Meta(0, 1, if |m.notFull| > 0 then m.notFull[0 := blk] else [blk])
  }

  function Next(c: Config, s: State, step: Step): State
    requires c.Valid() && Enabled(c, s, step)
  {
    match step
    case ReadMeta(pid) =>
      var t, m := s.procs[pid].t, s.meta;
      s.(procs := s.procs[pid := if m.nStart < m.nEnd && m.nStart < |m.notFull|
                                 then InsertFirst(t, m.notFull[m.nStart]) else InsertRetry(t, None)])
    case AddFirst(pid) =>
      var InsertFirst(t, blk) := s.procs[pid];
      var added := TryAdd(c, s.pages[blk], t);
      if added.Some? then Placed(s, pid, t, blk, added.value)
      else s.(procs := s.procs[pid := InsertRetry(t, Some(blk))])
    case LockMeta(pid) =>
      var InsertRetry(t, tried) := s.procs[pid];
      var n := s.meta.nStart;
      var skip := n < s.meta.nEnd && n < |s.meta.notFull| && tried == Some(s.meta.notFull[n]);
      s.(procs := s.procs[pid := InsertList(t, if skip then n + 1 else n)], metaLock := Some(pid))
    case AddListed(pid) =>
      var InsertList(t, at) := s.procs[pid];
      var blk := s.meta.notFull[at];
      var added := TryAdd(c, s.pages[blk], t);
      if added.Some? then Placed(s, pid, t, blk, added.value).(meta := s.meta.(nStart := at), metaLock := None)
      else s.(procs := s.procs[pid := InsertList(t, at + 1)])
    case GiveUpList(pid) => s.(procs := s.procs[pid := InsertAllocate(s.procs[pid].t)])
    case Recycle(pid, blk) =>
      var t := s.procs[pid].t;
      if blk < |s.pages| && Reusable(s.pages[blk]) then
        Placed(s, pid, t, blk, Data(false, [t])).(fsm := s.fsm - {blk}, meta := OnlyPage(s.meta, blk), metaLock := None)
      else s.(fsm := s.fsm - {blk})
    case Extend(pid) =>
      var t := s.procs[pid].t;
      Placed(s, pid, t, |s.pages|, Data(false, [t])).(meta := OnlyPage(s.meta, |s.pages|), metaLock := None)
    case Abort(pid, extended) =>
      s.(pages := if extended then s.pages + [New] else s.pages, procs := s.procs[pid := Finished], metaLock := None)
    case VacuumPage(pid) =>
      var VacuumPages(dead, npages, blk, listed) := s.procs[pid];
      var page := s.pages[blk];
      if Reusable(page) then s.(procs := s.procs[pid := VacuumPages(dead, npages, blk + 1, listed)])
      else
        var left := Alive(page.tuples, dead);
        var room := 0 < |left| < c.Capacity() && |listed| < c.listMax;
        s.(pages := s.pages[blk := Data(|left| < |page.tuples| && left == [], left)],
           procs := s.procs[pid := VacuumPages(dead, npages, blk + 1, if room then listed + [blk] else listed)],
           removed := s.removed + DeadIds(page.tuples, dead))
    case VacuumList(pid) => s.(procs := s.procs[pid := VacuumMeta(s.procs[pid].listed)])
    case RewriteMeta(pid) =>
      var listed := s.procs[pid].listed;
      s.(meta := Meta(0, |listed|, listed + (if |listed| <= |s.meta.notFull| then s.meta.notFull[|listed|..] else [])),
         procs := s.procs[pid := Finished])
    case CleanPage(pid) =>
      var Cleanup(npages, blk) := s.procs[pid];
      s.(fsm := if Reusable(s.pages[blk]) then s.fsm + {blk} else s.fsm, procs := s.procs[pid := Cleanup(npages, blk + 1)])
    case ScanPage(pid) =>
      var Scan(query, npages, blk, found, atStart) := s.procs[pid];
      var hits := if Reusable(s.pages[blk]) then {} else Matching(s.pages[blk].tuples, query);
      s.(procs := s.procs[pid := Scan(query, npages, blk + 1, found + hits, atStart)])
    case Begin(pid, p) => s.(procs := s.procs[pid := p])
    case FsmForgets(blk) => s.(fsm := s.fsm - {blk})
    case FsmInvents(blk) => s.(fsm := s.fsm + {blk})
  }

  // ---------------------------------------------------------------- the invariant

  /** Pages are within capacity and a page marked deleted is empty. */
  ghost predicate PagesInv(c: Config, s: State)
    requires c.Valid()
  {
    && |s.pages| > 0 && s.pages[0] == New
    && forall b :: 0 <= b < |s.pages| && s.pages[b].Data? ==>
      |s.pages[b].tuples| <= c.Capacity() && (s.pages[b].deleted ==> s.pages[b].tuples == [])
  }

  /** Tuples on pages are those inserted and not removed, each in one place. */
  ghost predicate ContentInv(s: State) {
    && (forall b: nat, t :: Here(s.pages, b, t) ==> t.id in s.inserted && s.inserted[t.id] == t && t.id !in s.removed)
    && (forall b: nat, b': nat, t :: Here(s.pages, b, t) && Here(s.pages, b', t) ==> b == b')
    && (forall b :: 0 <= b < |s.pages| ==> NoRepeats(Tuples(s.pages[b])))
    && (forall id :: id in s.inserted && id !in s.removed ==> Somewhere(s.pages, s.inserted[id]))
    && (forall id :: id in s.removed ==> id in s.inserted)
    && (forall id :: id in s.inserted ==> s.inserted[id].id == id)
  }

  ghost predicate NoRepeats(tuples: seq<Tuple>) {
    forall i, j :: 0 <= i < j < |tuples| ==> tuples[i] != tuples[j]
  }

  ghost predicate Somewhere(pages: seq<Page>, t: Tuple) {
    exists b: nat :: Here(pages, b, t)
  }

  ghost predicate Block(s: State, b: nat) {
    1 <= b < |s.pages|
  }

  ghost predicate MetaInv(c: Config, s: State) {
    && s.meta.nStart <= s.meta.nEnd <= |s.meta.notFull| == c.listMax
    && forall i :: 0 <= i < s.meta.nEnd ==> Block(s, s.meta.notFull[i])
  }

  ghost predicate ProcessInv(c: Config, s: State, pid: nat, p: Process) {
    match p
    case InsertStart(t) => t.id == pid && pid !in s.inserted
    case InsertFirst(t, blk) => t.id == pid && pid !in s.inserted && Block(s, blk)
    case InsertRetry(t, _) => t.id == pid && pid !in s.inserted
    case InsertList(t, at) => t.id == pid && pid !in s.inserted && s.meta.nStart <= at <= s.meta.nEnd && s.metaLock == Some(pid)
    case InsertAllocate(t) => t.id == pid && pid !in s.inserted && s.metaLock == Some(pid)
    case VacuumPages(_, npages, blk, listed) =>
      1 <= blk && npages <= |s.pages| && |listed| <= c.listMax && forall i :: 0 <= i < |listed| ==> Block(s, listed[i])
    case VacuumMeta(listed) => |listed| <= c.listMax && forall i :: 0 <= i < |listed| ==> Block(s, listed[i])
    case Cleanup(npages, blk) => 1 <= blk && npages <= |s.pages|
    case Scan(query, npages, blk, found, atStart) =>
      && 1 <= blk && npages <= |s.pages|
      && forall b: nat, t :: (b, t) in atStart ==> StillReported(s, query, npages, blk, found, b, t)
    case Finished => true
  }

  /** A tuple the scan started with: removed since, or where it was, and reported if its block is behind the scan. */
  ghost predicate StillReported(s: State, query: seq<bv16>, npages: nat, blk: nat, found: set<nat>, b: nat, t: Tuple) {
    && 1 <= b < npages
    && t.id in s.inserted && s.inserted[t.id] == t
    && (t.id in s.removed || Here(s.pages, b, t))
    && (t.id !in s.removed && b < blk && BloomSignature.Matches(t.sign, query) ==> t.tid in found)
  }

  ghost predicate Inv(c: Config, s: State)
    requires c.Valid()
  {
    && PagesInv(c, s) && ContentInv(s) && MetaInv(c, s)
    && (forall pid :: pid in s.procs ==> ProcessInv(c, s, pid, s.procs[pid]))
    && (forall b :: b in s.fsm ==> 1 <= b)
  }
}
