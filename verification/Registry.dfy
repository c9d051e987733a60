/**
 The C library's handle registry under every interleaving of its callers: a table of parsers behind a
 read-write lock, a mutex for each parser, and one for the parser they all share.
 */
module Registry {
  import opened Wrappers

  /** What a caller may name; only positive numbers are ever issued. */
  type Handle = int
  type Inst = nat
  type Thread = nat

  /** What a caller asks for under the write lock. */
  datatype Job = Load | Free(h: Handle)

  /** Where a thread is in its call. */
  datatype Pc =
    | Idle
    | WantW(job: Job)           // at reg.Lock
    | Announced(job: Job)       // ahead of other writers and new readers, until the readers leave
    | Writing(job: Job)
    | Numbered(h: Handle)       // nextID read back
    | Unlocking
    | WantR(h: Handle)          // at reg.RLock
    | Reading(h: Handle)
    | Looked(g: Option<Inst>)   // before reg.RUnlock
    | WantMu(inst: Inst)
    | WantShared(inst: Inst)    // the parser's own mutex held
    | Inside(inst: Inst)        // in ParseEbnf
    | Leaving(inst: Inst)       // the shared mutex given back

  datatype State = State(
    nextID: nat,
    loaded: map<Handle, Inst>,
    made: nat,
    mus: map<Inst, Option<Thread>>,
    shared: Option<Thread>,
    writer: Option<Thread>,
    readers: set<Thread>,
    pcs: seq<Pc>,
    issued: set<Handle>)

  function Init(threads: nat): State {
    State(0, map[], 0, map[], None, None, {}, seq(threads, _ => Idle), {})
  }

  /** A thread's next step inside its call; none where it waits. */
  function Go(s: State, t: Thread): Option<State>
    requires t < |s.pcs|
  {
    match s.pcs[t]
    case Idle => None
    case WantW(j) =>
      if s.writer.Some? then None else Some(s.(writer := Some(t), pcs := s.pcs[t := Announced(j)]))
    case Announced(j) => if s.readers != {} then None else Some(s.(pcs := s.pcs[t := Writing(j)]))
    case Writing(Load) => Some(s.(nextID := s.nextID + 1, pcs := s.pcs[t := Numbered(s.nextID + 1)]))
    case Writing(Free(h)) => Some(s.(loaded := s.loaded - {h}, pcs := s.pcs[t := Unlocking]))
    case Numbered(h) =>
      Some(s.(loaded := s.loaded[h := s.made], mus := s.mus[s.made := None], made := s.made + 1,
              issued := s.issued + {h}, pcs := s.pcs[t := Unlocking]))
    case Unlocking => Some(s.(writer := None, pcs := s.pcs[t := Idle]))
    case WantR(h) =>
      if s.writer.Some? then None else Some(s.(readers := s.readers + {t}, pcs := s.pcs[t := Reading(h)]))
    case Reading(h) => Some(s.(pcs := s.pcs[t := Looked(if h in s.loaded then Some(s.loaded[h]) else None)]))
    case Looked(g) =>
      Some(s.(readers := s.readers - {t}, pcs := s.pcs[t := if g.None? then Idle else WantMu(g.value)]))
    case WantMu(g) =>
      if g in s.mus && s.mus[g].Some? then None
      else Some(s.(mus := s.mus[g := Some(t)], pcs := s.pcs[t := WantShared(g)]))
    case WantShared(g) =>
      if s.shared.Some? then None else Some(s.(shared := Some(t), pcs := s.pcs[t := Inside(g)]))
    case Inside(g) => Some(s.(shared := None, pcs := s.pcs[t := Leaving(g)]))
    case Leaving(g) => Some(s.(mus := s.mus[g := None], pcs := s.pcs[t := Idle]))
  }

  /** The calls of the library. */
  datatype Call = LoadGrammar | ParseWith(h: Handle) | FreeGrammar(h: Handle)

  function Begin(s: State, t: Thread, c: Call): State
    requires t < |s.pcs|
  {
    s.(pcs := s.pcs[t := match c
                         case LoadGrammar => WantW(Load)
                         case ParseWith(h) => WantR(h)
                         case FreeGrammar(h) => WantW(Free(h))])
  }

  /** A thread steps on in its call, or an idle one makes a call. */
  datatype Move = Steps(t: Thread) | Calls(t: Thread, c: Call)

  ghost predicate Moves(s: State, m: Move, s': State) {
    && m.t < |s.pcs|
    && match m
       case Steps(t) => Go(s, t) == Some(s')
       case Calls(t, c) => s.pcs[t].Idle? && s' == Begin(s, t, c)
  }

  /** Any moves of any threads, from the start. */
  ghost predicate Run(states: seq<State>, moves: seq<Move>) {
    && |states| == |moves| + 1
    && (exists n: nat :: states[0] == Init(n))
    && forall i | 0 <= i < |moves| :: Moves(states[i], moves[i], states[i + 1])
  }

  // ---- what every step keeps

  predicate Writes(p: Pc) {
    p.Announced? || p.Writing? || p.Numbered? || p.Unlocking?
  }

  predicate Reads(p: Pc) {
    p.Reading? || p.Looked?
  }

  /** Whether a thread holds a parser's mutex. */
  predicate HasMu(p: Pc, g: Inst) {
    (p.WantShared? || p.Inside? || p.Leaving?) && p.inst == g
  }

  /** A parser a thread has found, whatever became of its handle since. */
  predicate Uses(p: Pc, g: Inst) {
    (p.Looked? && p.g == Some(g)) || ((p.WantMu? || p.WantShared? || p.Inside? || p.Leaving?) && p.inst == g)
  }

  ghost predicate WriterAgrees(s: State) {
    && (forall t | 0 <= t < |s.pcs| :: s.writer == Some(t) <==> Writes(s.pcs[t]))
    && (s.writer.Some? ==> s.writer.value < |s.pcs|)
  }

  ghost predicate ReadersAgree(s: State) {
    forall t: Thread :: t in s.readers <==> t < |s.pcs| && Reads(s.pcs[t])
  }

  /** The writer waits for the readers before it writes, and holds new ones off. */
  ghost predicate Excludes(s: State) {
    s.writer.Some? && s.writer.value < |s.pcs| && !s.pcs[s.writer.value].Announced? ==> s.readers == {}
  }

  ghost predicate SharedAgrees(s: State) {
    && (forall t | 0 <= t < |s.pcs| :: s.shared == Some(t) <==> s.pcs[t].Inside?)
    && (s.shared.Some? ==> s.shared.value < |s.pcs|)
  }

  ghost predicate LocksAgree(s: State) {
    WriterAgrees(s) && ReadersAgree(s) && Excludes(s) && SharedAgrees(s)
  }

  ghost predicate MutexesAgree(s: State) {
    && (forall g: Inst :: g in s.mus <==> g < s.made)
    && (forall g, t | g in s.mus && 0 <= t < |s.pcs| :: s.mus[g] == Some(t) <==> HasMu(s.pcs[t], g))
    && (forall g | g in s.mus && s.mus[g].Some? :: s.mus[g].value < |s.pcs|)
    && (forall t, g | 0 <= t < |s.pcs| && Uses(s.pcs[t], g) :: g in s.mus)
  }

  /** Whether a handle has its number and is not in the table yet. */
  predicate Pending(s: State) {
    s.writer.Some? && s.writer.value < |s.pcs| && s.pcs[s.writer.value].Numbered?
  }

  ghost predicate HandlesAgree(s: State) {
    && (forall h | h in s.loaded :: h in s.issued && s.loaded[h] < s.made)
    && (forall h, k | h in s.loaded && k in s.loaded && s.loaded[h] == s.loaded[k] :: h == k)
    && (Pending(s) ==> s.pcs[s.writer.value].h == s.nextID && s.nextID >= 1)
    && (forall h: Handle :: h in s.issued <==> 1 <= h <= s.nextID && !(Pending(s) && h == s.nextID))
  }

  ghost predicate Inv(s: State) {
    LocksAgree(s) && MutexesAgree(s) && HandlesAgree(s)
  }

  lemma InitInv(n: nat)
    ensures Inv(Init(n))
  {
  }

  /** Only thread t moves, to q. */
  predicate Turns(s: State, t: Thread, s': State, q: Pc) {
    t < |s.pcs| && s'.pcs == s.pcs[t := q]
  }

  /** A lock's holder before and after a step of one thread: the same, or taken or given up by that thread. */
  predicate Passes(before: Option<Thread>, after: Option<Thread>, t: Thread) {
    after == before || (before.None? && after == Some(t)) || (before == Some(t) && after.None?)
  }

  lemma WriterFrame(s: State, t: Thread, s': State, q: Pc)
    requires WriterAgrees(s) && Turns(s, t, s', q)
    requires Writes(q) <==> s'.writer == Some(t)
    requires Passes(s.writer, s'.writer, t)
    ensures WriterAgrees(s')
  {
  }

  lemma ReadersFrame(s: State, t: Thread, s': State, q: Pc)
    requires ReadersAgree(s) && Turns(s, t, s', q)
    requires Reads(q) <==> t in s'.readers
    requires forall u | u != t :: u in s'.readers <==> u in s.readers
    ensures ReadersAgree(s')
  {
  }

  lemma SharedFrame(s: State, t: Thread, s': State, q: Pc)
    requires SharedAgrees(s) && Turns(s, t, s', q)
    requires q.Inside? <==> s'.shared == Some(t)
    requires Passes(s.shared, s'.shared, t)
    ensures SharedAgrees(s')
  {
  }

  lemma LocksKept(s: State, t: Thread, s': State)
    requires t < |s.pcs| && LocksAgree(s) && Go(s, t) == Some(s')
    ensures LocksAgree(s')
  {
    hide WriterAgrees, ReadersAgree, SharedAgrees, Go, Writes, Reads, Turns, Excludes, Passes;
    OwnLocks(s, t);
    GoWriter(s, t, s');
    GoReaders(s, t, s');
    GoShared(s, t, s');
    var q := s'.pcs[t];
    WriterFrame(s, t, s', q);
    ReadersFrame(s, t, s', q);
    SharedFrame(s, t, s', q);
    ExcludesKept(s, t, s');
  }

  /** What a step does to the table's writer. */
  lemma GoWriter(s: State, t: Thread, s': State)
    requires t < |s.pcs| && Go(s, t) == Some(s') && (s.writer == Some(t) <==> Writes(s.pcs[t]))
    ensures |s'.pcs| == |s.pcs| && Turns(s, t, s', s'.pcs[t])
    ensures (Writes(s'.pcs[t]) <==> s'.writer == Some(t)) && Passes(s.writer, s'.writer, t)
  {
  }

  /** What a step does to its readers. */
  lemma GoReaders(s: State, t: Thread, s': State)
    requires t < |s.pcs| && Go(s, t) == Some(s') && (t in s.readers <==> Reads(s.pcs[t]))
    ensures |s'.pcs| == |s.pcs| && (Reads(s'.pcs[t]) <==> t in s'.readers)
    ensures forall u | u != t :: u in s'.readers <==> u in s.readers
  {
  }

  /** What a step does to the parser that is shared. */
  lemma GoShared(s: State, t: Thread, s': State)
    requires t < |s.pcs| && Go(s, t) == Some(s') && (s.shared == Some(t) <==> s.pcs[t].Inside?)
    ensures |s'.pcs| == |s.pcs| && (s'.pcs[t].Inside? <==> s'.shared == Some(t)) && Passes(s.shared, s'.shared, t)
  {
  }

  lemma OwnLocks(s: State, t: Thread)
    requires t < |s.pcs| && LocksAgree(s)
    ensures s.writer == Some(t) <==> Writes(s.pcs[t])
    ensures t in s.readers <==> Reads(s.pcs[t])
    ensures s.shared == Some(t) <==> s.pcs[t].Inside?
  {
  }

  lemma ExcludesKept(s: State, t: Thread, s': State)
    requires t < |s.pcs| && LocksAgree(s) && Go(s, t) == Some(s')
    ensures Excludes(s')
  {
    OwnLocks(s, t);
  }

  /** A step that takes and gives back no parser's mutex. */
  lemma MutexFrame(s: State, t: Thread, s': State, q: Pc)
    requires t < |s.pcs| && MutexesAgree(s) && s'.mus == s.mus && s'.made == s.made && s'.pcs == s.pcs[t := q]
    requires forall g :: HasMu(q, g) <==> HasMu(s.pcs[t], g)
    requires forall g | Uses(q, g) :: g in s.mus
    ensures MutexesAgree(s')
  {
  }

  lemma MutexesKept(s: State, t: Thread, s': State)
    requires t < |s.pcs| && Inv(s) && Go(s, t) == Some(s')
    ensures MutexesAgree(s')
  {
    var p := s.pcs[t];
    match p
    case Numbered(h) => MutexMade(s, t, s');
    case WantMu(g) => MutexTaken(s, t, s', g);
    case Leaving(g) => MutexGiven(s, t, s', g);
    case Reading(h) =>
      assert h in s.loaded ==> s.loaded[h] in s.mus;
      MutexFrame(s, t, s', s'.pcs[t]);
    case Looked(g) =>
      assert g.Some? ==> Uses(p, g.value);
      MutexFrame(s, t, s', s'.pcs[t]);
    case WantShared(g) => assert Uses(p, g); MutexFrame(s, t, s', s'.pcs[t]);
    case Inside(g) => assert Uses(p, g); MutexFrame(s, t, s', s'.pcs[t]);
    case Idle =>
    case _ => MutexFrame(s, t, s', s'.pcs[t]);
  }

  lemma MutexMade(s: State, t: Thread, s': State)
    requires t < |s.pcs| && MutexesAgree(s) && s.pcs[t].Numbered? && Go(s, t) == Some(s')
    ensures MutexesAgree(s')
  {
    forall u, g | 0 <= u < |s.pcs| && Uses(s'.pcs[u], g) ensures g in s'.mus { assert u != t && Uses(s.pcs[u], g); }
    assert s.made !in s.mus;
    forall u | 0 <= u < |s.pcs| ensures !HasMu(s.pcs[u], s.made) { assert !Uses(s.pcs[u], s.made); }
    forall g, u | g in s'.mus && 0 <= u < |s.pcs| ensures s'.mus[g] == Some(u) <==> HasMu(s'.pcs[u], g) {
    }
  }

  lemma MutexTaken(s: State, t: Thread, s': State, g: Inst)
    requires t < |s.pcs| && MutexesAgree(s) && s.pcs[t] == WantMu(g) && Go(s, t) == Some(s')
    ensures MutexesAgree(s')
  {
    assert Uses(s.pcs[t], g);
    forall u, h | 0 <= u < |s.pcs| && Uses(s'.pcs[u], h) ensures h in s'.mus {
      if u != t { assert Uses(s.pcs[u], h); }
    }
    forall h, u | h in s'.mus && 0 <= u < |s.pcs| ensures s'.mus[h] == Some(u) <==> HasMu(s'.pcs[u], h) {
      if u != t { assert s.mus[h] == Some(u) <==> HasMu(s.pcs[u], h); }
    }
  }

  lemma MutexGiven(s: State, t: Thread, s': State, g: Inst)
    requires t < |s.pcs| && MutexesAgree(s) && s.pcs[t] == Leaving(g) && Go(s, t) == Some(s')
    ensures MutexesAgree(s')
  {
    assert Uses(s.pcs[t], g) && HasMu(s.pcs[t], g) && g in s.mus;
    forall u, h | 0 <= u < |s.pcs| && Uses(s'.pcs[u], h) ensures h in s'.mus {
      assert u != t && Uses(s.pcs[u], h);
    }
    forall h, u | h in s'.mus && 0 <= u < |s.pcs| ensures s'.mus[h] == Some(u) <==> HasMu(s'.pcs[u], h) {
      if u != t { assert s.mus[h] == Some(u) <==> HasMu(s.pcs[u], h); }
    }
  }

  lemma HandlesKept(s: State, t: Thread, s': State)
    requires t < |s.pcs| && LocksAgree(s) && HandlesAgree(s) && Go(s, t) == Some(s')
    ensures HandlesAgree(s')
  {
    hide HandlesAgree;
    OwnLocks(s, t);
    assert s.writer.Some? && s.writer.value != t ==> s'.pcs[s.writer.value] == s.pcs[s.writer.value];
    match s.pcs[t]
    case Writing(_) => WritingKeepsHandles(s, t, s');
    case Numbered(_) => NumberedKeepsHandles(s, t, s');
    case Unlocking => UnlockingKeepsHandles(s, t, s');
    case _ => HandlesFrame(s, s');
  }

  lemma UnlockingKeepsHandles(s: State, t: Thread, s': State)
    requires t < |s.pcs| && HandlesAgree(s) && s.pcs[t].Unlocking? && s.writer == Some(t) && Go(s, t) == Some(s')
    ensures HandlesAgree(s')
  {
  }

  lemma WritingKeepsHandles(s: State, t: Thread, s': State)
    requires t < |s.pcs| && HandlesAgree(s) && s.pcs[t].Writing? && s.writer == Some(t) && Go(s, t) == Some(s')
    ensures HandlesAgree(s')
  {
  }

  lemma NumberedKeepsHandles(s: State, t: Thread, s': State)
    requires t < |s.pcs| && HandlesAgree(s) && s.pcs[t].Numbered? && s.writer == Some(t) && Go(s, t) == Some(s')
    ensures HandlesAgree(s')
  {
  }

  lemma HandlesFrame(s: State, s': State)
    requires HandlesAgree(s) && s'.loaded == s.loaded && s'.issued == s.issued
    requires s'.made == s.made && s'.nextID == s.nextID
    requires Pending(s') <==> Pending(s)
    requires Pending(s) ==> s'.pcs[s'.writer.value] == s.pcs[s.writer.value]
    ensures HandlesAgree(s')
  {
  }

  /** Every step keeps the invariant, whichever thread takes it. */
  lemma MovesKeepInv(s: State, m: Move, s': State)
    requires Inv(s) && Moves(s, m, s')
    ensures Inv(s')
  {
    match m
    case Steps(t) =>
      LocksKept(s, t, s');
      MutexesKept(s, t, s');
      HandlesKept(s, t, s');
    case Calls(t, c) => CallKeepsInv(s, t, c);
  }

  lemma CallKeepsInv(s: State, t: Thread, c: Call)
    requires Inv(s) && t < |s.pcs| && s.pcs[t].Idle?
    ensures Inv(Begin(s, t, c))
  {
    var s' := Begin(s, t, c);
    assert forall u | 0 <= u < |s.pcs| && u != t :: s'.pcs[u] == s.pcs[u];
    assert !Writes(s.pcs[t]) && s.writer != Some(t);
    MutexFrame(s, t, s', s'.pcs[t]);
    HandlesFrame(s, s');
  }

  // ---- what holds of every run

  lemma {:induction false} RunsKeepInv(states: seq<State>, moves: seq<Move>, i: nat)
    requires Run(states, moves) && i < |states|
    ensures Inv(states[i])
  {
    if i == 0 {
      var n: nat :| states[0] == Init(n);
      InitInv(n);
    } else {
      RunsKeepInv(states, moves, i - 1);
      assert Moves(states[i - 1], moves[i - 1], states[i]);
      MovesKeepInv(states[i - 1], moves[i - 1], states[i]);
    }
  }

  /** A handle is new when it is issued: it was never issued before, to any caller. */
  lemma HandlesAreNew(states: seq<State>, moves: seq<Move>, i: nat, t: Thread, h: Handle)
    requires Run(states, moves) && i < |moves| && moves[i] == Steps(t) && t < |states[i].pcs|
    requires states[i].pcs[t] == Numbered(h)
    ensures states[i + 1].issued == states[i].issued + {h} && h in states[i + 1].loaded
    ensures forall j | 0 <= j <= i :: h !in states[j].issued
  {
    RunsKeepInv(states, moves, i);
    assert Moves(states[i], moves[i], states[i + 1]);
    OwnLocks(states[i], t);
    forall j | 0 <= j <= i ensures h !in states[j].issued { IssuedGrows(states, moves, j, i); }
  }

  lemma {:induction false} IssuedGrows(states: seq<State>, moves: seq<Move>, j: nat, i: nat)
    requires Run(states, moves) && j <= i < |states|
    ensures states[j].issued <= states[i].issued && states[j].nextID <= states[i].nextID
    decreases i
  {
    if j < i {
      IssuedGrows(states, moves, j, i - 1);
      assert Moves(states[i - 1], moves[i - 1], states[i]);
    }
  }

  /** Once a handle was issued and is out of the table, it is never in it again. */
  lemma {:induction false} FreedStaysFreed(states: seq<State>, moves: seq<Move>, j: nat, i: nat, h: Handle)
    requires Run(states, moves) && j <= i < |states|
    requires h in states[j].issued && h !in states[j].loaded
    ensures h !in states[i].loaded
    decreases i
  {
    if j < i {
      FreedStaysFreed(states, moves, j, i - 1, h);
      IssuedGrows(states, moves, j, i - 1);
      assert Moves(states[i - 1], moves[i - 1], states[i]);
      if moves[i - 1].Steps? && states[i - 1].pcs[moves[i - 1].t].Numbered? {
        HandlesAreNew(states, moves, i - 1, moves[i - 1].t, states[i - 1].pcs[moves[i - 1].t].h);
      }
    }
  }

  // ---- which frees are final

  /** Whether a move of a run is a lookup of a handle that finds a parser. */
  ghost predicate Finds(states: seq<State>, moves: seq<Move>, i: nat, u: Thread, h: Handle) {
    && i < |moves| < |states| && moves[i] == Steps(u)
    && u < |states[i].pcs| && u < |states[i + 1].pcs|
    && states[i].pcs[u] == Reading(h) && states[i + 1].pcs[u] != Looked(None)
  }

  /** Whether a run goes on from another by a thread's step. */
  ghost predicate GoesOn(states: seq<State>, moves: seq<Move>, t: Thread, ss: seq<State>, ms: seq<Move>) {
    Run(ss, ms) && states <= ss && moves + [Steps(t)] <= ms
  }

  /** Whether no lookup finds a handle, however a run goes on once a thread has stepped. */
  ghost predicate NeverFound(states: seq<State>, moves: seq<Move>, t: Thread, h: Handle) {
    forall ss, ms, i, u | GoesOn(states, moves, t, ss, ms) && |moves| < i :: !Finds(ss, ms, i, u, h)
  }

  /** A lookup after the free of a handle fails, if the handle was issued when it was freed or never can be. */
  lemma LookupAfterFreeFails(states: seq<State>, moves: seq<Move>, j: nat, i: nat, t: Thread, u: Thread, h: Handle)
    requires Run(states, moves) && j < i < |moves|
    requires moves[j] == Steps(t) && t < |states[j].pcs| && states[j].pcs[t] == Writing(Free(h))
    requires h <= 0 || h in states[j].issued
    requires moves[i] == Steps(u) && u < |states[i].pcs| && states[i].pcs[u] == Reading(h)
    ensures u < |states[i + 1].pcs| && states[i + 1].pcs[u] == Looked(None)
  {
    assert Moves(states[j], moves[j], states[j + 1]) && Moves(states[i], moves[i], states[i + 1]);
    if h <= 0 {
      RunsKeepInv(states, moves, i);
    } else {
      FreedStaysFreed(states, moves, j + 1, i, h);
    }
  }

  /** A free is final, wherever a run has come to it, exactly when its handle was issued or is no handle at all. */
  lemma FreeIsFinalIff(states: seq<State>, moves: seq<Move>, t: Thread, h: Handle)
    requires Run(states, moves) && t < |states[|moves|].pcs| && states[|moves|].pcs[t] == Writing(Free(h))
    ensures NeverFound(states, moves, t, h) <==> h <= 0 || h in states[|moves|].issued
  {
    hide Go, Inv;
    if h <= 0 || h in states[|moves|].issued {
      forall ss, ms, i, u | GoesOn(states, moves, t, ss, ms) && |moves| < i ensures !Finds(ss, ms, i, u, h) {
        if Finds(ss, ms, i, u, h) {
          assert ss[|moves|] == states[|moves|] && ms[|moves|] == (moves + [Steps(t)])[|moves|];
          LookupAfterFreeFails(ss, ms, |moves|, i, t, u, h);
        }
      }
    } else {
      var ss, ms := FreeAheadIsLost(states, moves, t, h);
      assert Finds(ss, ms, |ms| - 1, t, h);
    }
  }

  /** One more step of a thread. */
  lemma StepsOn(states: seq<State>, moves: seq<Move>, t: Thread) returns (ss: seq<State>, ms: seq<Move>)
    requires Run(states, moves) && t < |states[|moves|].pcs| && Go(states[|moves|], t).Some?
    ensures Run(ss, ms) && states <= ss && ms == moves + [Steps(t)]
    ensures ss[|ms|] == Go(states[|moves|], t).value
  {
    ss, ms := RunGrows(states, moves, Steps(t), Go(states[|moves|], t).value);
  }

  /** An idle thread makes a call. */
  lemma CallsIn(states: seq<State>, moves: seq<Move>, t: Thread, c: Call) returns (ss: seq<State>, ms: seq<Move>)
    requires Run(states, moves) && t < |states[|moves|].pcs| && states[|moves|].pcs[t].Idle?
    ensures Run(ss, ms) && states <= ss && ms == moves + [Calls(t, c)]
    ensures ss[|ms|] == Begin(states[|moves|], t, c)
  {
    ss, ms := RunGrows(states, moves, Calls(t, c), Begin(states[|moves|], t, c));
  }

  lemma RunGrows(states: seq<State>, moves: seq<Move>, m: Move, s': State) returns (ss: seq<State>, ms: seq<Move>)
    requires Run(states, moves) && Moves(states[|moves|], m, s')
    ensures Run(ss, ms) && ss == states + [s'] && ms == moves + [m]
  {
    ss, ms := states + [s'], moves + [m];
    forall i | 0 <= i < |ms| ensures Moves(ss[i], ms[i], ss[i + 1]) {
      if i < |moves| { assert Moves(states[i], moves[i], states[i + 1]); }
    }
  }

  /** A thread is idle, no one holds the table, and k handles are numbered. */
  predicate Quiet(s: State, t: Thread, k: nat) {
    t < |s.pcs| && s.pcs[t].Idle? && s.writer.None? && s.readers == {} && s.nextID == k
  }

  /** The thread loads a grammar, the others standing still: it gets the next handle. */
  lemma LoadsNext(states: seq<State>, moves: seq<Move>, t: Thread, k: nat) returns (ss: seq<State>, ms: seq<Move>)
    requires Run(states, moves) && Quiet(states[|moves|], t, k)
    ensures Run(ss, ms) && states <= ss && moves <= ms
    ensures Quiet(ss[|ms|], t, k + 1) && k + 1 in ss[|ms|].loaded
  {
    hide Run;
    ss, ms := CallsIn(states, moves, t, LoadGrammar);
    ss, ms := StepsOn(ss, ms, t);
    assert ss[|ms|].pcs[t] == Announced(Load);
    ss, ms := StepsOn(ss, ms, t);
    assert ss[|ms|].pcs[t] == Writing(Load);
    ss, ms := StepsOn(ss, ms, t);
    assert ss[|ms|].pcs[t] == Numbered(k + 1);
    ss, ms := StepsOn(ss, ms, t);
    assert ss[|ms|].pcs[t] == Unlocking;
    ss, ms := StepsOn(ss, ms, t);
  }

  /** The thread looks a handle up that is in the table. */
  lemma LooksUp(states: seq<State>, moves: seq<Move>, t: Thread, h: Handle) returns (ss: seq<State>, ms: seq<Move>)
    requires Run(states, moves) && t < |states[|moves|].pcs| && states[|moves|].pcs[t].Idle?
    requires states[|moves|].writer.None? && h in states[|moves|].loaded
    ensures Run(ss, ms) && states <= ss && moves < ms && |moves| < |ms| - 1 && Finds(ss, ms, |ms| - 1, t, h)
  {
    hide Run;
    ss, ms := CallsIn(states, moves, t, ParseWith(h));
    ss, ms := StepsOn(ss, ms, t);
    assert ss[|ms|].pcs[t] == Reading(h);
    ss, ms := StepsOn(ss, ms, t);
  }

  /** Freeing a handle that is still to be issued is no free: the run can go on until a lookup finds it. */
  lemma FreeAheadIsLost(states: seq<State>, moves: seq<Move>, t: Thread, h: Handle)
    returns (ss: seq<State>, ms: seq<Move>)
    requires Run(states, moves) && t < |states[|moves|].pcs| && states[|moves|].pcs[t] == Writing(Free(h))
    requires h > 0 && h !in states[|moves|].issued
    ensures GoesOn(states, moves, t, ss, ms) && |moves| < |ms| - 1 && Finds(ss, ms, |ms| - 1, t, h)
  {
    var s := states[|moves|];
    RunsKeepInv(states, moves, |moves|);
    OwnLocks(s, t);
    ss, ms := StepsOn(states, moves, t);
    assert ss[|ms|].pcs[t] == Unlocking;
    ss, ms := StepsOn(ss, ms, t);
    var k := s.nextID;
    assert k < h && Quiet(ss[|ms|], t, k);
    while k < h
      invariant s.nextID <= k <= h && GoesOn(states, moves, t, ss, ms) && Quiet(ss[|ms|], t, k)
      invariant k > s.nextID ==> k in ss[|ms|].loaded
    {
      ss, ms := LoadsNext(ss, ms, t, k);
      k := k + 1;
    }
    ss, ms := LooksUp(ss, ms, t, h);
  }

  // ---- what a handle stands for, as long as it is not freed

  /** A step leaves every handle its parser, but for a free of it; and enters only a new one, with a new parser. */
  lemma StepsKeepTable(s: State, t: Thread, s': State, k: Handle)
    requires Inv(s) && t < |s.pcs| && Go(s, t) == Some(s')
    ensures k in s.loaded && s.pcs[t] != Writing(Free(k)) ==> k in s'.loaded && s'.loaded[k] == s.loaded[k]
    ensures s.pcs[t] == Writing(Free(k)) ==> k !in s'.loaded
    ensures k in s'.loaded && k !in s.loaded ==> s.pcs[t] == Numbered(k) && s'.loaded[k] == s.made
    ensures s.pcs[t] == Numbered(k) ==> k !in s.loaded && k in s'.loaded && s.made !in s.mus
  {
    OwnLocks(s, t);
  }

  /** Whether a move of a run is the free of a handle. */
  ghost predicate Frees(states: seq<State>, moves: seq<Move>, m: nat, h: Handle) {
    && m < |moves| && m < |states| && moves[m].Steps? && moves[m].t < |states[m].pcs|
    && states[m].pcs[moves[m].t] == Writing(Free(h))
  }

  lemma {:induction false} StaysLoaded(states: seq<State>, moves: seq<Move>, j: nat, i: nat, h: Handle)
    requires Run(states, moves) && j <= i < |states| && h in states[j].loaded
    requires forall m | j <= m < i :: !Frees(states, moves, m, h)
    ensures h in states[i].loaded && states[i].loaded[h] == states[j].loaded[h]
    decreases i
  {
    hide Go, Inv;
    if j < i {
      StaysLoaded(states, moves, j, i - 1, h);
      RunsKeepInv(states, moves, i - 1);
      var m := moves[i - 1];
      assert Moves(states[i - 1], m, states[i]) && !Frees(states, moves, i - 1, h);
      if m.Steps? { StepsKeepTable(states[i - 1], m.t, states[i], h); }
    }
  }

  /** From the step that issues a handle until one that frees it, every lookup finds the parser made for it. */
  lemma FoundUntilFreed(states: seq<State>, moves: seq<Move>, j: nat, i: nat, t: Thread, u: Thread, h: Handle)
    requires Run(states, moves) && j < i < |moves|
    requires moves[j] == Steps(t) && t < |states[j].pcs| && states[j].pcs[t] == Numbered(h)
    requires forall m | j < m < i :: !Frees(states, moves, m, h)
    requires moves[i] == Steps(u) && u < |states[i].pcs| && states[i].pcs[u] == Reading(h)
    ensures u < |states[i + 1].pcs| && states[i + 1].pcs[u] == Looked(Some(states[j].made))
    ensures states[j].made !in states[j].mus
  {
    assert Moves(states[j], moves[j], states[j + 1]) && Moves(states[i], moves[i], states[i + 1]);
    RunsKeepInv(states, moves, j);
    StepsKeepTable(states[j], t, states[j + 1], h);
    StaysLoaded(states, moves, j + 1, i, h);
  }

  /** Two handles never have one parser. */
  lemma ParsersDiffer(states: seq<State>, moves: seq<Move>, i: nat, h: Handle, k: Handle)
    requires Run(states, moves) && i < |states| && h in states[i].loaded && k in states[i].loaded && h != k
    ensures states[i].loaded[h] != states[i].loaded[k]
  {
    RunsKeepInv(states, moves, i);
  }

  // ---- a call does what it is for before it ends

  /** Whether a call is a thread's from its move on, and still is after the next ones. */
  ghost predicate Busy(states: seq<State>, moves: seq<Move>, i: nat, p: nat, t: Thread, c: Call) {
    && Run(states, moves) && i < p < |states| && moves[i] == Calls(t, c)
    && forall m | i < m < p :: t < |states[m].pcs| && !states[m].pcs[t].Idle?
  }

  /** Whether a thread has stepped from a place in its call. */
  ghost predicate Passed(states: seq<State>, moves: seq<Move>, i: nat, p: nat, t: Thread, q: Pc) {
    exists m: nat :: i < m < p && PassedAt(states, moves, m, t, q)
  }

  ghost predicate PassedAt(states: seq<State>, moves: seq<Move>, m: nat, t: Thread, q: Pc) {
    m < |moves| && m < |states| && moves[m] == Steps(t) && t < |states[m].pcs| && states[m].pcs[t] == q
  }

  lemma OthersStandStill(s: State, m: Move, s': State, t: Thread)
    requires Moves(s, m, s') && t < |s.pcs|
    ensures |s'.pcs| == |s.pcs| && (m.t != t ==> s'.pcs[t] == s.pcs[t])
    ensures m.t == t && !s.pcs[t].Idle? ==> m == Steps(t) && Go(s, t) == Some(s')
  {
    hide Go;
    if m.Steps? { GoTurns(s, m.t, s'); }
  }

  /** The last move of a busy stretch: the thread's own step, or one that leaves it where it is. */
  lemma LastMove(states: seq<State>, moves: seq<Move>, i: nat, p: nat, t: Thread, c: Call)
    requires Busy(states, moves, i, p, t, c) && p > i + 1
    ensures Busy(states, moves, i, p - 1, t, c) && p <= |moves| && t < |states[p].pcs|
    ensures t < |states[p - 1].pcs| && !states[p - 1].pcs[t].Idle?
    ensures if moves[p - 1].t == t then PassedAt(states, moves, p - 1, t, states[p - 1].pcs[t])
                                        && Go(states[p - 1], t) == Some(states[p])
            else states[p].pcs[t] == states[p - 1].pcs[t]
  {
    hide Go;
    assert Moves(states[p - 1], moves[p - 1], states[p]);
    OthersStandStill(states[p - 1], moves[p - 1], states[p], t);
  }

  lemma FirstMove(states: seq<State>, moves: seq<Move>, i: nat, t: Thread, c: Call)
    requires Busy(states, moves, i, i + 1, t, c)
    ensures t < |states[i + 1].pcs|
    ensures states[i + 1].pcs[t] == match c
                                    case LoadGrammar => WantW(Load)
                                    case ParseWith(h) => WantR(h)
                                    case FreeGrammar(h) => WantW(Free(h))
  {
    assert Moves(states[i], moves[i], states[i + 1]);
  }

  lemma PassedMore(states: seq<State>, moves: seq<Move>, i: nat, p: nat, t: Thread, q: Pc)
    requires i < p && (Passed(states, moves, i, p, t, q) || PassedAt(states, moves, p, t, q))
    ensures Passed(states, moves, i, p + 1, t, q)
  {
  }

  /** A free that has ended has taken its handle out. */
  lemma {:induction false} FreesFirst(states: seq<State>, moves: seq<Move>, i: nat, p: nat, t: Thread, h: Handle)
    requires i < p < |states| && Busy(states, moves, i, p, t, FreeGrammar(h))
    ensures t < |states[p].pcs|
    ensures var q := states[p].pcs[t];
            || q in {WantW(Free(h)), Announced(Free(h)), Writing(Free(h))}
            || ((q.Unlocking? || q.Idle?) && Passed(states, moves, i, p, t, Writing(Free(h))))
    decreases p
  {
    hide Busy, Passed, PassedAt;
    if p == i + 1 {
      FirstMove(states, moves, i, t, FreeGrammar(h));
    } else {
      LastMove(states, moves, i, p, t, FreeGrammar(h));
      FreesFirst(states, moves, i, p - 1, t, h);
      var x := Writing(Free(h));
      if Passed(states, moves, i, p - 1, t, x) || PassedAt(states, moves, p - 1, t, x) {
        PassedMore(states, moves, i, p - 1, t, x);
      }
    }
  }

  /** A load that has ended has entered a handle. */
  lemma {:induction false} LoadsFirst(states: seq<State>, moves: seq<Move>, i: nat, p: nat, t: Thread)
    returns (h: Handle)
    requires i < p < |states| && Busy(states, moves, i, p, t, LoadGrammar)
    ensures t < |states[p].pcs|
    ensures var q := states[p].pcs[t];
            || q in {WantW(Load), Announced(Load), Writing(Load), Numbered(h)}
            || ((q.Unlocking? || q.Idle?) && Passed(states, moves, i, p, t, Numbered(h)))
    decreases p
  {
    hide Busy, Passed, PassedAt;
    if p == i + 1 {
      FirstMove(states, moves, i, t, LoadGrammar);
      h := 0;
    } else {
      LastMove(states, moves, i, p, t, LoadGrammar);
      h := LoadsFirst(states, moves, i, p - 1, t);
      var x := Numbered(h);
      if Passed(states, moves, i, p - 1, t, x) || PassedAt(states, moves, p - 1, t, x) {
        PassedMore(states, moves, i, p - 1, t, x);
      }
      if states[p].pcs[t].Numbered? { h := states[p].pcs[t].h; }
    }
  }

  /** Whether a thread has looked a handle up, and what was in the table for it then. */
  ghost predicate LookedUp(states: seq<State>, moves: seq<Move>, i: nat, p: nat, t: Thread, h: Handle,
                           g: Option<Inst>) {
    exists m: nat ::
      && i < m < p && PassedAt(states, moves, m, t, Reading(h))
      && g == if h in states[m].loaded then Some(states[m].loaded[h]) else None
  }

  /** A parse that has ended has looked its handle up and, if it found a parser, run it. */
  lemma {:induction false} ParsesFirst(states: seq<State>, moves: seq<Move>, i: nat, p: nat, t: Thread, h: Handle)
    returns (g: Option<Inst>)
    requires i < p < |states| && Busy(states, moves, i, p, t, ParseWith(h))
    ensures t < |states[p].pcs|
    ensures var q := states[p].pcs[t];
            || q in {WantR(h), Reading(h)}
            || (q == Looked(g) && LookedUp(states, moves, i, p, t, h, g))
            || (g.Some? && q in {WantMu(g.value), WantShared(g.value), Inside(g.value)}
                && LookedUp(states, moves, i, p, t, h, g))
            || (g.Some? && (q == Leaving(g.value) || q.Idle?) && LookedUp(states, moves, i, p, t, h, g)
                && Passed(states, moves, i, p, t, Inside(g.value)))
            || (g.None? && q.Idle? && LookedUp(states, moves, i, p, t, h, g))
    decreases p
  {
    hide Busy, Passed, PassedAt, LookedUp;
    g := None;
    if p == i + 1 {
      FirstMove(states, moves, i, t, ParseWith(h));
    } else {
      LastMove(states, moves, i, p, t, ParseWith(h));
      g := ParsesFirst(states, moves, i, p - 1, t, h);
      var q := states[p - 1].pcs[t];
      if q == Reading(h) && moves[p - 1].t == t {
        g := if h in states[p - 1].loaded then Some(states[p - 1].loaded[h]) else None;
        LooksNow(states, moves, i, p - 1, t, h);
      } else if q != WantR(h) && q != Reading(h) {
        LookedMore(states, moves, i, p - 1, t, h, g);
        if g.Some? {
          var x := Inside(g.value);
          if Passed(states, moves, i, p - 1, t, x) || PassedAt(states, moves, p - 1, t, x) {
            PassedMore(states, moves, i, p - 1, t, x);
          }
        }
      }
    }
  }

  lemma LooksNow(states: seq<State>, moves: seq<Move>, i: nat, p: nat, t: Thread, h: Handle)
    requires i < p && PassedAt(states, moves, p, t, Reading(h))
    ensures LookedUp(states, moves, i, p + 1, t, h,
                     if h in states[p].loaded then Some(states[p].loaded[h]) else None)
  {
  }

  lemma LookedMore(states: seq<State>, moves: seq<Move>, i: nat, p: nat, t: Thread, h: Handle, g: Option<Inst>)
    requires LookedUp(states, moves, i, p, t, h, g)
    ensures LookedUp(states, moves, i, p + 1, t, h, g)
  {
  }

  /** A call that has come to its end has done what it is for. */
  lemma CallsDoTheirWork(states: seq<State>, moves: seq<Move>, i: nat, e: nat, t: Thread, c: Call)
    requires i < e < |states| && Busy(states, moves, i, e, t, c) && t < |states[e].pcs| && states[e].pcs[t].Idle?
    ensures match c
            case FreeGrammar(h) => Passed(states, moves, i, e, t, Writing(Free(h)))
            case LoadGrammar => exists h :: Passed(states, moves, i, e, t, Numbered(h))
            case ParseWith(h) =>
              exists g :: LookedUp(states, moves, i, e, t, h, g)
                          && (g.Some? ==> Passed(states, moves, i, e, t, Inside(g.value)))
  {
    hide Busy, Passed, LookedUp;
    match c
    case FreeGrammar(h) => FreesFirst(states, moves, i, e, t, h);
    case LoadGrammar => var h := LoadsFirst(states, moves, i, e, t);
    case ParseWith(h) => var g := ParsesFirst(states, moves, i, e, t, h);
  }

  // ---- locks

  /** No two threads are in ParseEbnf, hold one parser's mutex, or write; none reads while one writes. */
  lemma Exclusion(states: seq<State>, moves: seq<Move>, i: nat, t: Thread, u: Thread, g: Inst)
    requires Run(states, moves) && i < |states| && t < |states[i].pcs| && u < |states[i].pcs| && t != u
    ensures var p, q := states[i].pcs[t], states[i].pcs[u];
            && !(p.Inside? && q.Inside?)
            && !(HasMu(p, g) && HasMu(q, g))
            && !(Writes(p) && Writes(q))
            && !(Writes(p) && !p.Announced? && Reads(q))
  {
    RunsKeepInv(states, moves, i);
    var s := states[i];
    OwnLocks(s, t);
    OwnLocks(s, u);
    assert HasMu(s.pcs[t], g) ==> Uses(s.pcs[t], g) && s.mus[g] == Some(t);
    assert HasMu(s.pcs[u], g) ==> Uses(s.pcs[u], g) && s.mus[g] == Some(u);
  }

  /** While some call is on its way, some thread can step. */
  lemma NoDeadlock(s: State) returns (t: Thread)
    requires Inv(s) && exists u :: 0 <= u < |s.pcs| && !s.pcs[u].Idle?
    ensures t < |s.pcs| && Go(s, t).Some?
  {
    var u :| 0 <= u < |s.pcs| && !s.pcs[u].Idle?;
    if s.shared.Some? {
      t := s.shared.value;
      OwnLocks(s, t);
    } else if s.readers != {} {
      t :| t in s.readers;
    } else if s.writer.Some? {
      t := s.writer.value;
      OwnLocks(s, t);
    } else {
      t := u;
      if s.pcs[u].WantMu? {
        var g := s.pcs[u].inst;
        assert Uses(s.pcs[u], g);
        if s.mus[g].Some? {
          t := s.mus[g].value;
          HolderSteps(s, t, g);
        }
      }
    }
  }

  lemma HolderSteps(s: State, t: Thread, g: Inst)
    requires Inv(s) && g in s.mus && s.mus[g] == Some(t) && s.shared.None?
    ensures t < |s.pcs| && Go(s, t).Some?
  {
    assert HasMu(s.pcs[t], g);
  }

  // ---- every call comes to its end

  /** A bound on the steps a call has left. */
  function Left(p: Pc): nat {
    match p
    case Idle => 0
    case WantW(_) => 5
    case Announced(_) => 4
    case Writing(_) => 3
    case Numbered(_) => 2
    case Unlocking => 1
    case WantR(_) => 7
    case Reading(_) => 6
    case Looked(_) => 5
    case WantMu(_) => 4
    case WantShared(_) => 3
    case Inside(_) => 2
    case Leaving(_) => 1
  }

  function Work(pcs: seq<Pc>): nat {
    if pcs == [] then 0 else Left(pcs[0]) + Work(pcs[1..])
  }

  lemma {:induction false} WorkAt(pcs: seq<Pc>, t: Thread, q: Pc)
    requires t < |pcs|
    ensures Work(pcs[t := q]) == Work(pcs) - Left(pcs[t]) + Left(q)
  {
    if t == 0 {
      assert pcs[0 := q][1..] == pcs[1..];
    } else {
      assert pcs[t := q][1..] == pcs[1..][t - 1 := q];
      WorkAt(pcs[1..], t - 1, q);
    }
  }

  lemma {:induction false} NoWork(pcs: seq<Pc>)
    ensures Work(pcs) == 0 <==> forall t | 0 <= t < |pcs| :: pcs[t].Idle?
  {
    if pcs != [] {
      NoWork(pcs[1..]);
      assert forall t | 1 <= t < |pcs| :: pcs[t] == pcs[1..][t - 1];
    }
  }

  lemma StepsLeaveLess(s: State, t: Thread, s': State)
    requires t < |s.pcs| && Go(s, t) == Some(s')
    ensures Work(s'.pcs) < Work(s.pcs)
  {
    GoTurns(s, t, s');
    WorkAt(s.pcs, t, s'.pcs[t]);
  }

  lemma GoTurns(s: State, t: Thread, s': State)
    requires t < |s.pcs| && Go(s, t) == Some(s')
    ensures |s'.pcs| == |s.pcs| && Turns(s, t, s', s'.pcs[t]) && Left(s'.pcs[t]) < Left(s.pcs[t])
  {
  }

  /** The states of a schedule of steps, from one on. */
  ghost predicate Schedule(states: seq<State>, ts: seq<Thread>) {
    && |states| == |ts| + 1
    && forall i | 0 <= i < |ts| :: ts[i] < |states[i].pcs| && Go(states[i], ts[i]) == Some(states[i + 1])
  }

  /** However threads are scheduled, the calls that are on their way take no more steps than they have left. */
  lemma {:induction false} SchedulesEnd(states: seq<State>, ts: seq<Thread>)
    requires Schedule(states, ts)
    ensures |ts| + Work(states[|ts|].pcs) <= Work(states[0].pcs)
    decreases |ts|
  {
    if ts != [] {
      var n := |ts| - 1;
      SchedulesEnd(states[..n + 1], ts[..n]);
      StepsLeaveLess(states[n], ts[n], states[n + 1]);
    }
  }

  lemma ScheduleFrom(s: State, t: Thread, rest: seq<State>, us: seq<Thread>)
    requires Schedule(rest, us) && t < |s.pcs| && Go(s, t) == Some(rest[0])
    ensures Schedule([s] + rest, [t] + us)
  {
    hide Go;
    var states, ts := [s] + rest, [t] + us;
    forall i | 0 <= i < |ts|
      ensures ts[i] < |states[i].pcs| && Go(states[i], ts[i]) == Some(states[i + 1])
    {
      if i > 0 { assert states[i] == rest[i - 1] && states[i + 1] == rest[i] && ts[i] == us[i - 1]; }
    }
  }

  /** And from every state that is reached they can all be brought to their end. */
  lemma {:induction false} CallsCanEnd(s: State) returns (states: seq<State>, ts: seq<Thread>)
    requires Inv(s)
    ensures Schedule(states, ts) && states[0] == s
    ensures forall t | 0 <= t < |states[|ts|].pcs| :: states[|ts|].pcs[t].Idle?
    decreases Work(s.pcs)
  {
    hide Go, Inv, Work;
    NoWork(s.pcs);
    if Work(s.pcs) == 0 {
      states, ts := [s], [];
    } else {
      var t := NoDeadlock(s);
      var s' := Go(s, t).value;
      MovesKeepInv(s, Steps(t), s');
      StepsLeaveLess(s, t, s');
      var rest, us := CallsCanEnd(s');
      states, ts := [s] + rest, [t] + us;
      ScheduleFrom(s, t, rest, us);
    }
  }
}
