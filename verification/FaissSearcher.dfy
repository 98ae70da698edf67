/** The vector index: a CPU index, the GPU copy that answers for it, and batched search. */
module FaissSearcher {
  import opened Outcomes
  import opened Arithmetic

  // ------------------------------------------------------------------ nlist

  /** The integer part of a square root. */
  function Root(m: nat): (k: nat)
    ensures k * k <= m < (k + 1) * (k + 1)
  {
    if m == 0 then 0
    else
      var k := Root(m - 1);
      if (k + 1) * (k + 1) <= m then k + 1 else k
  }

  /** `default_nlist`; the truncated `4 * sqrt(n)` is the root of `16 * n`. */
  function DefaultNlist(n: nat): nat {
    if n == 0 then 1
    else
      var root := Root(16 * n);
      var least := if root < n / 39 then root else n / 39;
      if least < 1 then 1 else least
  }

  lemma SquareMono(j: nat, k: nat)
    ensures j <= k ==> j * j <= k * k
    ensures j * j < (k + 1) * (k + 1) ==> j <= k
  {
    if j <= k { RowStep(j, k, j); RowStep(j, k, k); } else { RowStep(k + 1, j, j); RowStep(k + 1, j, k + 1); }
  }

  /** Cells: as many as both bounds allow, so that a cell has 39 training vectors. */
  lemma NlistLargest(n: nat, j: nat)
    requires n >= 39
    ensures j <= DefaultNlist(n) <==> 39 * j <= n && j * j <= 16 * n
  {
    var root := Root(16 * n);
    SquareMono(j, root);
    SquareMono(6, root);
  }

  lemma NlistMonotone(m: nat, n: nat)
    requires m <= n
    ensures 1 <= DefaultNlist(m) <= DefaultNlist(n)
    ensures m > 0 ==> DefaultNlist(m) <= m
  {
    if 39 <= m {
      NlistLargest(m, DefaultNlist(m));
      NlistLargest(n, DefaultNlist(m));
    }
  }

  lemma RootOfSquare(x: real, m: nat)
    requires x >= 0.0 && x * x == m as real
    ensures Root(m) == x.Floor
  {
    FloorSquare(x, x.Floor, m);
    RootUnique(x.Floor, Root(m), m);
  }

  lemma FourTimes(s: real, x: real, n: nat)
    requires s * s == n as real && x == 4.0 * s
    ensures x * x == (16 * n) as real
  {
    assert x * x == 16.0 * (s * s);
  }

  /** The code takes four times a square root and truncates it. */
  lemma RootIsFloor(n: nat, s: real)
    requires s >= 0.0 && s * s == n as real
    ensures Root(16 * n) == (4.0 * s).Floor
  {
    FourTimes(s, 4.0 * s, n);
    RootOfSquare(4.0 * s, 16 * n);
  }

  lemma RootUnique(j: nat, k: nat, m: nat)
    requires j * j <= m < (j + 1) * (j + 1) && k * k <= m < (k + 1) * (k + 1)
    ensures j == k
  {
    SquareMono(j, k);
    SquareMono(k, j);
  }

  lemma FloorSquare(x: real, k: nat, m: nat)
    requires k as real <= x < k as real + 1.0 && x * x == m as real
    ensures k * k <= m < (k + 1) * (k + 1)
  {
    var a, b := k as real, (k + 1) as real;
    SquareOrder(a, x);
    SquareOrder(b, x);
    assert a * a == (k * k) as real && b * b == ((k + 1) * (k + 1)) as real;
  }

  /** Below 24375 vectors the training bound decides, from there on the square root does. */
  lemma NlistBranches(n: nat)
    requires n >= 39
    ensures DefaultNlist(n) == n / 39 <==> n < 24375
  {
    var k := n / 39;
    NlistLargest(n, k);
    if k <= 624 { RowStep(k, 625, k); } else { RowStep(624, k, k); }
  }

  // ---------------------------------------------------------------- the index

  datatype Metric = InnerProduct | L2

  datatype IndexType = IVFFlat | IVFPQ

  datatype FaissConfig =
    FaissConfig(indexType: IndexType, ivfPqMinSize: nat, nlist: nat, pqM: nat, metric: Metric, gpuId: int)

  /** `Eigen::MatrixXf`, one embedding per column. */
  datatype Matrix = Matrix(rows: nat, columns: seq<seq<real>>)

  datatype Entry = Entry(id: int, vector: seq<real>)

  /** What a FAISS index holds: its layout, what its quantizers were trained on, and the entries by id. */
  datatype Index = Index(
    layout: IndexType, metric: Metric, dim: nat, nlist: nat, pqM: nat, trainedOn: seq<seq<real>>, entries: seq<Entry>)

  datatype SearchResult = SearchResult(id: int, similarity: real)

  /**
   How a call into FAISS can fail: inside the CPU index, which an addition or a removal may
   leave in any condition, or while the copy for the GPU is made.
   */
  datatype Fault = NoFault | InEngine(left: Index) | InClone

  /** The columns under the first identifiers: `add_with_ids` reads as many identifiers as there are columns. */
  function Zip(columns: seq<seq<real>>, ids: seq<int>): seq<Entry>
    requires |columns| <= |ids|
  {
    seq(|columns|, i requires 0 <= i < |columns| => Entry(ids[i], columns[i]))
  }

  /** The entries whose identifier is not listed, in order. */
  function Without(es: seq<Entry>, ids: set<int>): seq<Entry> {
    if es == [] then []
    else Without(es[..|es| - 1], ids) + (if es[|es| - 1].id in ids then [] else [es[|es| - 1]])
  }

  function IdSet(ids: seq<int>): set<int> { set id | id in ids }

  function ChosenType(cfg: FaissConfig, n: nat): IndexType {
    if cfg.indexType == IVFPQ && n < cfg.ivfPqMinSize then IVFFlat else cfg.indexType
  }

  function Built(cfg: FaissConfig, m: Matrix, ids: seq<int>): Index
    requires |ids| == |m.columns|
  {
    Index(ChosenType(cfg, |m.columns|), cfg.metric, m.rows,
          if cfg.nlist > 0 then cfg.nlist else DefaultNlist(|m.columns|),
          cfg.pqM, m.columns, Zip(m.columns, ids))
  }

  function Added(index: Index, m: Matrix, ids: seq<int>): Index
    requires |m.columns| <= |ids|
  {
    index.(entries := index.entries + Zip(m.columns, ids))
  }

  function Removed(index: Index, ids: seq<int>): Index { index.(entries := Without(index.entries, IdSet(ids))) }

  // ------------------------------------------------------------------ searcher

  datatype State = State(cpu: Option<Index>, gpu: Option<Index>, onGpu: bool, dimension: nat)

  const INITIAL := State(None, None, false, 0)

  datatype Call =
    | Build(m: Matrix, ids: seq<int>, fault: Fault)
    | Add(m: Matrix, ids: seq<int>, beyond: seq<int>, fault: Fault)
    | Remove(ids: seq<int>, fault: Fault)
    | Load(file: Index, fault: Fault)
  {
    /**
     `add` checks nothing: it reads one identifier per column, and where there are too few it goes
     on into whatever lies `beyond` them in memory.
     */
    predicate Valid() { Add? ==> |m.columns| <= |ids| + |beyond| }

    /** The exception of a call that never reaches FAISS. */
    function Rejection(built: bool): Option<Exception> {
      match this
      case Build(m, ids, _) => if |m.columns| != |ids| then Some(InvalidArgument) else None
      case Load(_, _) => None
      case _ => if built then None else Some(RuntimeError)
    }

    /** The CPU index a call that reaches FAISS leaves, from the one it found. */
    function Published(cfg: FaissConfig, cpu: Option<Index>): Option<Index>
      requires Valid() && Rejection(cpu.Some?) == None
    {
      match this
      case Build(m, ids, fault) => if fault.InEngine? then cpu else Some(Built(cfg, m, ids))
      case Add(m, ids, beyond, fault) =>
        Some(if fault.InEngine? then fault.left else Added(cpu.value, m, ids + beyond))
      case Remove(ids, fault) => Some(if fault.InEngine? then fault.left else Removed(cpu.value, ids))
      case Load(file, fault) => if fault.InEngine? then cpu else Some(file)
    }

    function Dimension(was: nat): nat {
      match this
      case Build(m, _, _) => m.rows
      case Load(file, fault) => if fault.InEngine? then was else file.dim
      case _ => was
    }

    /** A build or a load copies to a configured device; an addition or a removal refreshes an existing copy. */
    predicate Copies(cfg: FaissConfig, onGpu: bool) {
      if Build? || Load? then cfg.gpuId >= 0 else onGpu
    }
  }

  /** The exception that leaves a call, if any. */
  function Thrown(cfg: FaissConfig, s: State, call: Call): Option<Exception> {
    if call.Rejection(s.cpu.Some?).Some? then call.Rejection(s.cpu.Some?)
    else if call.fault.InEngine? || (call.fault.InClone? && call.Copies(cfg, s.onGpu)) then Some(FaissException)
    else None
  }

  function After(cfg: FaissConfig, s: State, call: Call): State
    requires call.Valid()
  {
    if call.Rejection(s.cpu.Some?).Some? then s
    else
      var cpu := call.Published(cfg, s.cpu);
      var copied := call.Copies(cfg, s.onGpu) && call.fault.NoFault?;
      State(cpu, if copied then cpu else s.gpu, s.onGpu || copied, call.Dimension(s.dimension))
  }

  /** Holds whatever has failed so far. */
  predicate Sound(cfg: FaissConfig, s: State) {
    && (s.onGpu <==> s.gpu.Some?)
    && (s.onGpu ==> s.cpu.Some? && cfg.gpuId >= 0)
  }

  /** The index that answers searches. */
  function Serving(s: State): Option<Index> { if s.onGpu then s.gpu else s.cpu }

  /** A copy on the GPU is the CPU index: searches answer as the CPU index would. */
  predicate Mirrored(s: State) { Serving(s) == s.cpu }

  /**
   One call. If it returns, the searcher is mirrored even when an earlier failure had left a
   stale copy. If it throws in a mirrored searcher, the copy goes stale exactly when there is
   one and the call got as far as changing the CPU index.
   */
  lemma StepMirrors(cfg: FaissConfig, s: State, call: Call)
    requires call.Valid() && Sound(cfg, s)
    ensures Sound(cfg, After(cfg, s, call))
    ensures Thrown(cfg, s, call) == None ==> Mirrored(After(cfg, s, call))
    ensures Mirrored(s) && Thrown(cfg, s, call).Some? ==>
              (Mirrored(After(cfg, s, call)) <==> !s.onGpu || After(cfg, s, call).cpu == s.cpu)
  {}

  /**
   What a build that returns answers from: one entry for each column in order, compressed only
   when configured and large enough; and unless the cell count is configured, at least one
   training vector for each cell, 39 from 39 vectors on.
   */
  lemma BuildServes(cfg: FaissConfig, s: State, m: Matrix, ids: seq<int>, fault: Fault)
    requires Sound(cfg, s) && Thrown(cfg, s, Build(m, ids, fault)) == None
    ensures var s' := After(cfg, s, Build(m, ids, fault)); var n := |m.columns|;
            && Serving(s').Some? && s'.dimension == m.rows && (s'.onGpu <==> cfg.gpuId >= 0)
            && var index := Serving(s').value;
               && |index.entries| == n && index.dim == m.rows
               && index.metric == cfg.metric && index.pqM == cfg.pqM && index.trainedOn == m.columns
               && (cfg.nlist > 0 ==> index.nlist == cfg.nlist)
               && (forall i :: 0 <= i < n ==> index.entries[i] == Entry(ids[i], m.columns[i]))
               && (index.layout == IVFPQ <==> cfg.indexType == IVFPQ && n >= cfg.ivfPqMinSize)
               && (cfg.nlist == 0 && n > 0 ==> 1 <= index.nlist <= n)
               && (cfg.nlist == 0 && n >= 39 ==> 39 * index.nlist <= n)
  {
    var n := |m.columns|;
    NlistMonotone(n, n);
    if n >= 39 { NlistLargest(n, DefaultNlist(n)); }
  }

  lemma {:induction false} WithoutMeans(es: seq<Entry>, ids: set<int>, e: Entry)
    ensures e in Without(es, ids) <==> e in es && e.id !in ids
    ensures e.id !in ids ==> multiset(Without(es, ids))[e] == multiset(es)[e]
  {
    if es != [] {
      WithoutMeans(es[..|es| - 1], ids, e);
      assert es == es[..|es| - 1] + [es[|es| - 1]];
    }
  }

  /** What a load that returns answers from: the file, on the GPU exactly when one is configured. */
  lemma LoadServes(cfg: FaissConfig, s: State, file: Index, fault: Fault)
    requires Sound(cfg, s) && Thrown(cfg, s, Load(file, fault)) == None
    ensures var s' := After(cfg, s, Load(file, fault));
            Serving(s') == Some(file) && s'.dimension == file.dim && (s'.onGpu <==> cfg.gpuId >= 0)
  {}

  /** What an addition that returns answers from: the index as it was, with one more entry for each column. */
  lemma AddServes(cfg: FaissConfig, s: State, m: Matrix, ids: seq<int>, beyond: seq<int>, fault: Fault)
    requires Sound(cfg, s) && |m.columns| <= |ids| && Thrown(cfg, s, Add(m, ids, beyond, fault)) == None
    ensures s.cpu.Some?
    ensures var s' := After(cfg, s, Add(m, ids, beyond, fault)); var n := |s.cpu.value.entries|;
            && Serving(s').Some? && s'.dimension == s.dimension && s'.onGpu == s.onGpu
            && var index := Serving(s').value;
               && index.(entries := s.cpu.value.entries) == s.cpu.value
               && |index.entries| == n + |m.columns| && index.entries[..n] == s.cpu.value.entries
               && forall i :: 0 <= i < |m.columns| ==> index.entries[n + i] == Entry(ids[i], m.columns[i])
  {
    assert s.cpu.value.(entries := s.cpu.value.entries) == s.cpu.value;
  }

  /** What a removal that returns answers from: the index as it was, without the listed identifiers. */
  lemma RemoveServes(cfg: FaissConfig, s: State, ids: seq<int>, fault: Fault, e: Entry)
    requires Sound(cfg, s) && Thrown(cfg, s, Remove(ids, fault)) == None
    ensures s.cpu.Some?
    ensures var s' := After(cfg, s, Remove(ids, fault));
            && Serving(s').Some? && s'.dimension == s.dimension && s'.onGpu == s.onGpu
            && var index := Serving(s').value;
               && index.(entries := s.cpu.value.entries) == s.cpu.value
               && (e.id in ids ==> e !in index.entries)
               && (e.id !in ids ==> multiset(index.entries)[e] == multiset(s.cpu.value.entries)[e])
  {
    WithoutMeans(s.cpu.value.entries, IdSet(ids), e);
    assert s.cpu.value.(entries := s.cpu.value.entries) == s.cpu.value;
  }

  /** What a build whose training or filling throws leaves: both indexes as they were, but the new dimension. */
  lemma BuildFails(cfg: FaissConfig, s: State, m: Matrix, ids: seq<int>, fault: Fault)
    requires |m.columns| == |ids| && fault.InEngine?
    ensures Thrown(cfg, s, Build(m, ids, fault)) == Some(FaissException)
    ensures After(cfg, s, Build(m, ids, fault)) == s.(dimension := m.rows)
  {}

  /** Which calls throw before they reach FAISS, and what. */
  lemma CallsTurnedAway(cfg: FaissConfig, s: State, c: Call)
    requires c.Valid() && c.fault == NoFault
    ensures Thrown(cfg, s, c) ==
            if c.Build? && |c.m.columns| != |c.ids| then Some(InvalidArgument)
            else if (c.Add? || c.Remove?) && s.cpu == None then Some(RuntimeError)
            else None
    ensures Thrown(cfg, s, c).Some? ==> After(cfg, s, c) == s
  {}

  /** What lies in memory behind the identifiers matters exactly when there are fewer of them than columns. */
  lemma IdentifiersMissing(columns: seq<seq<real>>, ids: seq<int>)
    ensures (forall a: seq<int>, b: seq<int> :: |columns| <= |ids| + |a| && |columns| <= |ids| + |b| ==>
              Zip(columns, ids + a) == Zip(columns, ids + b)) <==> |columns| <= |ids|
  {
    if |columns| > |ids| {
      var a, b := seq(|columns|, i => 0), seq(|columns|, i => 1);
      assert Zip(columns, ids + a)[|ids|].id == 0 && Zip(columns, ids + b)[|ids|].id == 1;
    }
  }

  function RunOf(cfg: FaissConfig, calls: seq<Call>): State
    requires forall c :: c in calls ==> c.Valid()
  {
    if calls == [] then INITIAL else After(cfg, RunOf(cfg, calls[..|calls| - 1]), calls[|calls| - 1])
  }

  lemma {:induction false} RunSound(cfg: FaissConfig, calls: seq<Call>)
    requires forall c :: c in calls ==> c.Valid()
    ensures Sound(cfg, RunOf(cfg, calls))
  {
    if calls != [] {
      RunSound(cfg, calls[..|calls| - 1]);
      StepMirrors(cfg, RunOf(cfg, calls[..|calls| - 1]), calls[|calls| - 1]);
    }
  }

  /**
   Over a whole run, with failures anywhere: the searcher is mirrored unless its last call that
   was not turned away threw.
   */
  lemma {:induction false} RunMirrored(cfg: FaissConfig, calls: seq<Call>, k: nat)
    requires k <= |calls| && forall c :: c in calls ==> c.Valid()
    requires k > 0 ==> Thrown(cfg, RunOf(cfg, calls[..k - 1]), calls[k - 1]) == None
    requires forall j :: k <= j < |calls| ==> calls[j].Rejection(RunOf(cfg, calls[..j]).cpu.Some?).Some?
    ensures Mirrored(RunOf(cfg, calls))
  {
    if calls == [] {
      return;
    }
    var front := calls[..|calls| - 1];
    if |calls| > k {
      assert calls[..|calls| - 1] == front && forall j :: 0 <= j <= |front| ==> front[..j] == calls[..j];
      RunMirrored(cfg, front, k);
      assert RunOf(cfg, calls) == RunOf(cfg, front);
    } else {
      RunSound(cfg, front);
      StepMirrors(cfg, RunOf(cfg, front), calls[|calls| - 1]);
    }
  }

  // ---------------------------------------------------------- contents of a run

  lemma {:induction false} WithoutAppend(es: seq<Entry>, fs: seq<Entry>, ids: set<int>)
    ensures Without(es + fs, ids) == Without(es, ids) + Without(fs, ids)
  {
    if fs == [] {
      assert es + fs == es;
    } else {
      var front := fs[..|fs| - 1];
      assert (es + fs)[..|es + fs| - 1] == es + front;
      WithoutAppend(es, front, ids);
    }
  }

  lemma {:induction false} WithoutTwice(es: seq<Entry>, a: set<int>, b: set<int>)
    ensures Without(Without(es, a), b) == Without(es, a + b)
  {
    if es != [] {
      var front, last := es[..|es| - 1], es[|es| - 1];
      WithoutTwice(front, a, b);
      WithoutAppend(Without(front, a), if last.id in a then [] else [last], b);
      assert Without([last], b) == if last.id in b then [] else [last] by {
        assert [last][..0] == [];
      }
    }
  }

  lemma {:induction false} WithoutNone(es: seq<Entry>)
    ensures Without(es, {}) == es
  {
    if es != [] { WithoutNone(es[..|es| - 1]); }
  }

  function Entries(s: State): seq<Entry> { if s.cpu.Some? then s.cpu.value.entries else [] }

  /** Some earlier build or load succeeded. */
  predicate HasIndex(calls: seq<Call>) {
    calls != [] && (
      var call := calls[|calls| - 1];
      HasIndex(calls[..|calls| - 1])
      || (call.Build? && |call.m.columns| == |call.ids| && !call.fault.InEngine?)
      || (call.Load? && !call.fault.InEngine?))
  }

  /**
   The entries a run enrolled and did not drop, read backwards with the identifiers that later
   calls removed: back to the last build or load, each call contributes what it enrolled, less
   what was removed after it.
   */
  function Surviving(calls: seq<Call>, removed: set<int>): seq<Entry>
    requires forall c :: c in calls ==> c.Valid()
  {
    if calls == [] then []
    else
      var call, before := calls[|calls| - 1], calls[..|calls| - 1];
      assert call in calls && call.Valid();
      match call
      case Build(m, ids, fault) =>
        if |m.columns| != |ids| || fault.InEngine? then Surviving(before, removed)
        else Without(Zip(m.columns, ids), removed)
      case Load(file, fault) =>
        if fault.InEngine? then Surviving(before, removed) else Without(file.entries, removed)
      case Add(m, ids, beyond, fault) =>
        if !HasIndex(before) then []
        else if fault.InEngine? then Without(fault.left.entries, removed)
        else Surviving(before, removed) + Without(Zip(m.columns, ids + beyond), removed)
      case Remove(ids, fault) =>
        if !HasIndex(before) then []
        else if fault.InEngine? then Without(fault.left.entries, removed)
        else Surviving(before, IdSet(ids) + removed)
  }

  lemma {:induction false} RunHasIndex(cfg: FaissConfig, calls: seq<Call>)
    requires forall c :: c in calls ==> c.Valid()
    ensures RunOf(cfg, calls).cpu.Some? <==> HasIndex(calls)
  {
    if calls != [] { RunHasIndex(cfg, calls[..|calls| - 1]); }
  }

  lemma {:induction false} SurvivingFrom(cfg: FaissConfig, calls: seq<Call>, removed: set<int>)
    requires forall c :: c in calls ==> c.Valid()
    ensures Without(Entries(RunOf(cfg, calls)), removed) == Surviving(calls, removed)
  {
    if calls != [] {
      var call, before := calls[|calls| - 1], calls[..|calls| - 1];
      assert call in calls;
      RunHasIndex(cfg, before);
      var s := RunOf(cfg, before);
      SurvivingFrom(cfg, before, removed);
      if call.Add? && s.cpu.Some? && !call.fault.InEngine? {
        WithoutAppend(Entries(s), Zip(call.m.columns, call.ids + call.beyond), removed);
      }
      if call.Remove? && s.cpu.Some? && !call.fault.InEngine? {
        WithoutTwice(Entries(s), IdSet(call.ids), removed);
        SurvivingFrom(cfg, before, IdSet(call.ids) + removed);
      }
    }
  }

  /** The index holds what was enrolled since the last build or load and not removed afterwards. */
  lemma RunContents(cfg: FaissConfig, calls: seq<Call>)
    requires forall c :: c in calls ==> c.Valid()
    ensures Entries(RunOf(cfg, calls)) == Surviving(calls, {})
  {
    SurvivingFrom(cfg, calls, {});
    WithoutNone(Entries(RunOf(cfg, calls)));
  }

  // ------------------------------------------------------------------- search

  /** An index's answer to a query, in as many slots as asked for. */
  type Ranking = (Index, seq<real>, nat) -> seq<SearchResult>

  /**
   Nearest neighbours of one query: `k` slots, best first, the unused ones at the end under
   negative labels.
   */
  ghost predicate IsRanking(rank: Ranking) {
    forall index, query, k :: |rank(index, query, k)| == k && Ranked(rank(index, query, k))
  }

  ghost predicate Ranked(hits: seq<SearchResult>) {
    forall i, j :: 0 <= i < j < |hits| && hits[i].id >= 0 && hits[j].id >= 0 ==>
      hits[i].similarity >= hits[j].similarity
  }

  /** The slots that hold a hit. */
  function Reported(hits: seq<SearchResult>): seq<SearchResult> {
    if hits == [] then []
    else Reported(hits[..|hits| - 1]) + (if hits[|hits| - 1].id < 0 then [] else [hits[|hits| - 1]])
  }

  lemma {:induction false} ReportedMembers(hits: seq<SearchResult>, h: SearchResult)
    ensures |Reported(hits)| <= |hits|
    ensures h in Reported(hits) <==> h in hits && h.id >= 0
  {
    if hits != [] {
      var front := hits[..|hits| - 1];
      ReportedMembers(front, h);
      assert hits == front + [hits[|hits| - 1]];
    }
  }

  lemma {:induction false} ReportedRanked(hits: seq<SearchResult>)
    requires Ranked(hits)
    ensures Ranked(Reported(hits))
  {
    if hits != [] && hits[|hits| - 1].id >= 0 {
      var front, last := hits[..|hits| - 1], hits[|hits| - 1];
      ReportedRanked(front);
      forall i | 0 <= i < |Reported(front)| ensures Reported(front)[i].similarity >= last.similarity {
        ReportedMembers(front, Reported(front)[i]);
      }
    } else if hits != [] {
      ReportedRanked(hits[..|hits| - 1]);
    }
  }

  lemma ReportedIsRanked(hits: seq<SearchResult>)
    requires Ranked(hits)
    ensures |Reported(hits)| <= |hits| && Ranked(Reported(hits))
    ensures forall h :: h in Reported(hits) <==> h in hits && h.id >= 0
  {
    ReportedRanked(hits);
    ReportedMembers(hits, SearchResult(0, 0.0));
    forall h ensures h in Reported(hits) <==> h in hits && h.id >= 0 {
      ReportedMembers(hits, h);
    }
  }

  /** `Index::search` on a block of queries: the slots of all rows end to end. */
  function FlatHits(index: Index, queries: seq<seq<real>>, k: nat, rank: Ranking): seq<SearchResult> {
    if queries == [] then []
    else FlatHits(index, queries[..|queries| - 1], k, rank) + rank(index, queries[|queries| - 1], k)
  }

  lemma {:induction false} FlatHitsAt(index: Index, queries: seq<seq<real>>, k: nat, rank: Ranking,
                                      q: nat, r: nat, pos: nat)
    requires IsRanking(rank) && q < |queries| && r < k && pos == q * k + r
    ensures pos < |FlatHits(index, queries, k, rank)| && FlatHits(index, queries, k, rank)[pos]
      == rank(index, queries[q], k)[r]
  {
    var front := queries[..|queries| - 1];
    FlatHitsLength(index, front, k, rank);
    if q < |front| { FlatHitsAt(index, front, k, rank, q, r, pos); }
  }

  lemma {:induction false} FlatHitsLength(index: Index, queries: seq<seq<real>>, k: nat, rank: Ranking)
    requires IsRanking(rank)
    ensures |FlatHits(index, queries, k, rank)| == |queries| * k
  {
    if queries != [] {
      FlatHitsLength(index, queries[..|queries| - 1], k, rank);
      assert (|queries| - 1) * k + k == |queries| * k;
    }
  }

  /** What a batch of queries is answered with. */
  function AnswersOf(index: Index, queries: seq<seq<real>>, k: nat, rank: Ranking): seq<seq<SearchResult>> {
    seq(|queries|, q requires 0 <= q < |queries| => Reported(rank(index, queries[q], k)))
  }

  class Searcher {
    const cfg: FaissConfig
    var indexCpu: Option<Index>
    var indexGpu: Option<Index>
    var onGpu: bool
    var dimension: nat

    function Value(): State
      reads this
    {
      State(indexCpu, indexGpu, onGpu, dimension)
    }

    constructor (cfg: FaissConfig)
      ensures this.cfg == cfg && Value() == INITIAL
    {
      this.cfg := cfg;
      indexCpu, indexGpu, onGpu, dimension := None, None, false, 0;
    }

    /** `index_gpu.reset(index_cpu_to_gpu(...))`: if the copy throws, the old one stays. */
    method CopyToGpu(fault: Fault) returns (r: Result<()>)
      modifies this`indexGpu
      ensures r == if fault.InClone? then Err(FaissException) else Ok(())
      ensures indexGpu == if fault.InClone? then old(indexGpu) else indexCpu
    {
      if fault.InClone? {
        return Err(FaissException);
      }
      indexGpu := indexCpu;
      return Ok(());
    }

    method Build(m: Matrix, ids: seq<int>, fault: Fault) returns (r: Result<()>)
      modifies this
      ensures Value() == After(cfg, old(Value()), Call.Build(m, ids, fault))
      ensures r == Outcome(Thrown(cfg, old(Value()), Call.Build(m, ids, fault)))
    {
      var n := |m.columns|;
      if n != |ids| {
        return Err(InvalidArgument);
      }
      dimension := m.rows;
      var chosen := cfg.indexType;
      if chosen == IVFPQ && n < cfg.ivfPqMinSize {
        chosen := IVFFlat;
      }
      var nlist := if cfg.nlist > 0 then cfg.nlist else DefaultNlist(n);
      var wrapped := Index(chosen, cfg.metric, m.rows, nlist, cfg.pqM, [], []);
      if fault.InEngine? {
        return Err(FaissException);
      }
      wrapped := wrapped.(trainedOn := m.columns);
      wrapped := Added(wrapped, m, ids);
      assert [] + Zip(m.columns, ids) == Zip(m.columns, ids);
      indexCpu := Some(wrapped);
      r := Ok(());
      if cfg.gpuId >= 0 {
        r := CopyToGpu(fault);
        if r.Ok? {
          onGpu := true;
        }
      }
    }

    method Add(m: Matrix, ids: seq<int>, beyond: seq<int>, fault: Fault) returns (r: Result<()>)
      requires |m.columns| <= |ids| + |beyond|
      modifies this
      ensures Value() == After(cfg, old(Value()), Call.Add(m, ids, beyond, fault))
      ensures r == Outcome(Thrown(cfg, old(Value()), Call.Add(m, ids, beyond, fault)))
    {
      if indexCpu.None? {
        return Err(RuntimeError);
      }
      if fault.InEngine? {
        indexCpu := Some(fault.left);
        return Err(FaissException);
      }
      indexCpu := Some(Added(indexCpu.value, m, ids + beyond));
      r := Ok(());
      if onGpu {
        r := CopyToGpu(fault);
      }
    }

    method Remove(ids: seq<int>, fault: Fault) returns (r: Result<()>)
      modifies this
      ensures Value() == After(cfg, old(Value()), Call.Remove(ids, fault))
      ensures r == Outcome(Thrown(cfg, old(Value()), Call.Remove(ids, fault)))
    {
      if indexCpu.None? {
        return Err(RuntimeError);
      }
      if fault.InEngine? {
        indexCpu := Some(fault.left);
        return Err(FaissException);
      }
      indexCpu := Some(Removed(indexCpu.value, ids));
      r := Ok(());
      if onGpu {
        r := CopyToGpu(fault);
      }
    }

    method Load(file: Index, fault: Fault) returns (r: Result<()>)
      modifies this
      ensures Value() == After(cfg, old(Value()), Call.Load(file, fault))
      ensures r == Outcome(Thrown(cfg, old(Value()), Call.Load(file, fault)))
    {
      if fault.InEngine? {
        return Err(FaissException);
      }
      indexCpu := Some(file);
      dimension := file.dim;
      r := Ok(());
      if cfg.gpuId >= 0 {
        r := CopyToGpu(fault);
        if r.Ok? {
          onGpu := true;
        }
      }
    }

    /** `search_batch`: the slots with a non-negative label, row by row. */
    method SearchBatch(queries: seq<seq<real>>, topK: nat, rank: Ranking)
      returns (r: Result<seq<seq<SearchResult>>>)
      requires Sound(cfg, Value()) && IsRanking(rank)
      ensures r.Ok? <==> indexCpu.Some?
      ensures r.Err? ==> r.error == RuntimeError
      ensures r.Ok? ==> r.value == AnswersOf(Serving(Value()).value, queries, topK, rank)
      ensures r.Ok? && Mirrored(Value()) ==> r.value == AnswersOf(indexCpu.value, queries, topK, rank)
    {
      if indexCpu.None? {
        return Err(RuntimeError);
      }
      var idx := if onGpu then indexGpu.value else indexCpu.value;
      var hits := FlatHits(idx, queries, topK, rank);
      var labels := seq(|hits|, i requires 0 <= i < |hits| => hits[i].id);
      var distances := seq(|hits|, i requires 0 <= i < |hits| => hits[i].similarity);
      var out := new seq<SearchResult>[|queries|];
      for q := 0 to |queries|
        invariant out[..q] == AnswersOf(idx, queries, topK, rank)[..q]
      {
        ghost var row := rank(idx, queries[q], topK);
        out[q] := [];
        for r := 0 to topK
          invariant out[..q] == AnswersOf(idx, queries, topK, rank)[..q]
          invariant out[q] == Reported(row[..r])
        {
          var pos := q * topK + r;
          FlatHitsAt(idx, queries, topK, rank, q, r, pos);
          assert row[..r + 1][..r] == row[..r];
          if labels[pos] < 0 {
            continue;
          }
          out[q] := out[q] + [SearchResult(labels[pos], distances[pos])];
        }
        assert row[..topK] == row;
      }
      return Ok(out[..]);
    }

    /** `search`: the answer of a batch of one. */
    method Search(query: seq<real>, topK: nat, rank: Ranking) returns (r: Result<seq<SearchResult>>)
      requires Sound(cfg, Value()) && IsRanking(rank)
      ensures r.Ok? <==> indexCpu.Some?
      ensures r.Err? ==> r.error == RuntimeError
      ensures r.Ok? ==>
        r.value == Reported(rank(Serving(Value()).value, query, topK)) && |r.value| <= topK && Ranked(r.value)
      ensures r.Ok? && Mirrored(Value()) ==> r.value == Reported(rank(indexCpu.value, query, topK))
    {
      var batched := SearchBatch([query], topK, rank);
      if batched.Err? {
        return Err(batched.error);
      }
      ReportedIsRanked(rank(Serving(Value()).value, query, topK));
      return Ok(if batched.value == [] then [] else batched.value[0]);
    }
  }

  function Outcome(thrown: Option<Exception>): Result<()> {
    if thrown.Some? then Err(thrown.value) else Ok(())
  }
}
