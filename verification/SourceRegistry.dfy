/** The sources of a running pipeline: registration against a media framework that may fail at any step. */
module SourceRegistry {
  import opened Outcomes

  // -------------------------------------------------------------------- names

  function Digit(d: nat): char
    requires d < 10
  {
    ['0', '1', '2', '3', '4', '5', '6', '7', '8', '9'][d]
  }

  /** `std::to_string` */
  function Decimal(n: nat): (s: string)
    ensures s != ""
  {
    if n < 10 then [Digit(n)] else Decimal(n / 10) + [Digit(n % 10)]
  }

  lemma {:induction false} DecimalInjective(m: nat, n: nat)
    requires Decimal(m) == Decimal(n)
    ensures m == n
  {
    var s, t := Decimal(m), Decimal(n);
    assert s[|s| - 1] == Digit(m % 10) && t[|t| - 1] == Digit(n % 10);
    if m >= 10 && n >= 10 {
      assert s[..|s| - 1] == Decimal(m / 10) && t[..|t| - 1] == Decimal(n / 10);
      DecimalInjective(m / 10, n / 10);
    }
  }

  /** A numeral read by its characters' places. */
  function Reading(s: string): int {
    if s == "" then 0 else 10 * Reading(s[..|s| - 1]) + (s[|s| - 1] as int - '0' as int)
  }

  /** The numeral is made of digits, has no leading zero, and reads as the number. */
  lemma {:induction false} DecimalReads(n: nat)
    ensures Reading(Decimal(n)) == n
    ensures forall i :: 0 <= i < |Decimal(n)| ==> '0' <= Decimal(n)[i] <= '9'
    ensures n > 0 ==> Decimal(n)[0] != '0'
  {
    DigitValue(n % 10);
    if n >= 10 {
      DecimalReads(n / 10);
      assert Decimal(n)[..|Decimal(n)| - 1] == Decimal(n / 10);
    } else {
      DigitValue(n);
      assert Decimal(n)[..0] == "";
    }
  }

  lemma DigitValue(d: nat)
    requires d < 10
    ensures '0' <= Digit(d) <= '9' && Digit(d) as int - '0' as int == d
    ensures d > 0 ==> Digit(d) != '0'
  {}

  const BIN_PREFIX := "src-bin-"

  const PAD_PREFIX := "sink_"

  function BinName(i: nat): string { BIN_PREFIX + Decimal(i) }

  function PadName(i: nat): string { PAD_PREFIX + Decimal(i) }

  lemma BinNameInjective(m: nat, n: nat)
    requires BinName(m) == BinName(n)
    ensures m == n
  {
    assert BinName(m)[|BIN_PREFIX|..] == Decimal(m) && BinName(n)[|BIN_PREFIX|..] == Decimal(n);
    DecimalInjective(m, n);
  }

  // ----------------------------------------------------------------- registry

  /**
   The registered sources with their indices, the next index, the source bins that are
   children of the pipeline, and the pads requested from the stream muxer.
   */
  datatype Registry = Registry(sources: map<string, nat>, next: nat, bins: seq<string>, pads: set<string>)

  const EMPTY := Registry(map[], 0, [], {})

  /** What the framework answers while a source is added, step by step. */
  datatype Gst = Gst(factory: bool, binAdd: bool, muxPad: bool, srcPad: bool, link: bool) {
    predicate AllWell() { factory && binAdd && muxPad && srcPad && link }

    /** The bin has joined the pipeline, and a later step fails. */
    predicate FailsLate() { factory && binAdd && !(muxPad && srcPad && link) }
  }

  datatype Request = Add(id: string, gst: Gst) | Remove(id: string) | Count

  datatype Answer = Flag(ok: bool) | Number(n: nat)

  /** The children without the first one of that name. */
  function Dropped(bins: seq<string>, name: string): seq<string> {
    if bins == [] then []
    else if bins[0] == name then bins[1..]
    else [bins[0]] + Dropped(bins[1..], name)
  }

  predicate Admitted(max: nat, r: Registry, id: string) { |r.sources| < max && id !in r.sources }

  /** A whole request, as one step. */
  function Served(max: nat, r: Registry, q: Request): Registry {
    match q
    case Count => r
    case Remove(id) =>
      if id !in r.sources then r
      else r.(sources := r.sources - {id}, bins := Dropped(r.bins, BinName(r.sources[id])))
    case Add(id, gst) =>
      if !Admitted(max, r, id) then r
      else
        var binned := gst.factory && gst.binAdd;
        Registry(if gst.AllWell() then r.sources[id := r.next] else r.sources,
                 r.next + 1,
                 if binned then r.bins + [BinName(r.next)] else r.bins,
                 if binned && gst.muxPad then r.pads + {PadName(r.next)} else r.pads)
  }

  function AnswerTo(max: nat, r: Registry, q: Request): Answer {
    match q
    case Count => Number(|r.sources|)
    case Remove(id) => Flag(id in r.sources)
    case Add(id, gst) => Flag(Admitted(max, r, id) && gst.AllWell())
  }

  const MAX_SOURCES_HARD_LIMIT := 32

  class Pipeline {
    const maxStreams: nat
    var sources: map<string, nat>
    var nextSourceIndex: nat
    var bins: seq<string>
    var pads: set<string>

    function Value(): Registry
      reads this
    {
      Registry(sources, nextSourceIndex, bins, pads)
    }

    constructor (maxStreams: nat)
      ensures this.maxStreams == maxStreams && Value() == EMPTY
    {
      this.maxStreams := maxStreams;
      sources, nextSourceIndex, bins, pads := map[], 0, [], {};
    }

    /** `add_source` */
    method AddSource(id: string, gst: Gst) returns (ok: bool)
      modifies this
      ensures Value() == Served(maxStreams, old(Value()), Add(id, gst))
      ensures Flag(ok) == AnswerTo(maxStreams, old(Value()), Add(id, gst))
      ensures ok <==>
        && |old(sources)| < maxStreams && id !in old(sources)
        && gst.factory && gst.binAdd && gst.muxPad && gst.srcPad && gst.link
      ensures sources == if ok then old(sources)[id := old(nextSourceIndex)] else old(sources)
      ensures nextSourceIndex
        == old(nextSourceIndex) + if |old(sources)| < maxStreams && id !in old(sources) then 1 else 0
      ensures var binned := nextSourceIndex > old(nextSourceIndex) && gst.factory && gst.binAdd;
              && bins == old(bins) + (if binned then ["src-bin-" + Decimal(old(nextSourceIndex))] else [])
              && pads == old(pads) + (if binned && gst.muxPad then {"sink_" + Decimal(old(nextSourceIndex))} else {})
    {
      if |sources| >= maxStreams {
        return false;
      }
      if id in sources {
        return false;
      }
      var idx := nextSourceIndex;
      nextSourceIndex := nextSourceIndex + 1;
      if !gst.factory {
        return false;
      }
      if !gst.binAdd {
        return false;
      }
      bins := bins + [BinName(idx)];
      if gst.muxPad {
        pads := pads + {PadName(idx)};
      }
      if !gst.muxPad || !gst.srcPad {
        return false;
      }
      if !gst.link {
        return false;
      }
      sources := sources[id := idx];
      return true;
    }

    /** `remove_source` */
    method RemoveSource(id: string) returns (ok: bool)
      modifies this
      ensures Value() == Served(maxStreams, old(Value()), Remove(id))
      ensures Flag(ok) == AnswerTo(maxStreams, old(Value()), Remove(id))
      ensures ok <==> id in old(sources)
      ensures sources == old(sources) - {id} && nextSourceIndex == old(nextSourceIndex) && pads == old(pads)
      ensures ok && Distinct(old(bins)) ==>
        forall b :: b in bins <==> b in old(bins) && b != "src-bin-" + Decimal(old(sources)[id])
    {
      if id in sources && Distinct(bins) { DroppedNames(bins, BinName(sources[id])); }
      if id !in sources {
        return false;
      }
      bins := Dropped(bins, BinName(sources[id]));
      sources := sources - {id};
      return true;
    }

    method SourceCount() returns (n: nat)
      ensures Number(n) == AnswerTo(maxStreams, Value(), Count)
    {
      n := |sources|;
    }
  }

  /** Construction: the hard limit is checked first, then the fixed elements and their links. */
  method NewPipeline(maxStreams: nat, elements: bool, linked: bool) returns (r: Result<Pipeline>)
    ensures r.Ok? <==> maxStreams <= 32 && elements && linked
    ensures r.Err? ==> r.error == if maxStreams > 32 then InvalidArgument else RuntimeError
    ensures r.Ok? ==> fresh(r.value) && r.value.maxStreams == maxStreams && r.value.Value() == EMPTY
  {
    if maxStreams > MAX_SOURCES_HARD_LIMIT {
      return Err(InvalidArgument);
    }
    if !elements {
      return Err(RuntimeError);
    }
    if !linked {
      return Err(RuntimeError);
    }
    var p := new Pipeline(maxStreams);
    return Ok(p);
  }

  // ---------------------------------------------------------------- invariants

  ghost predicate Distinct(names: seq<string>) { forall i, j :: 0 <= i < j < |names| ==> names[i] != names[j] }

  /** Every child of the pipeline has a name of its own, issued before. */
  ghost predicate BinsConsistent(bins: seq<string>, next: nat) {
    Distinct(bins) && forall name :: name in bins ==> IssuedBelow(name, next)
  }

  /** Limited in number; indices below the counter, one to a source. */
  ghost predicate SourcesConsistent(max: nat, sources: map<string, nat>, next: nat) {
    && |sources| <= max
    && (forall id :: id in sources ==> sources[id] < next)
    && (forall a, b :: a in sources && b in sources && sources[a] == sources[b] ==> a == b)
  }

  predicate Equipped(i: nat, bins: seq<string>, pads: set<string>) { BinName(i) in bins && PadName(i) in pads }

  /** Each source has its bin and its pad. */
  ghost predicate AllEquipped(sources: map<string, nat>, bins: seq<string>, pads: set<string>) {
    forall id :: id in sources ==> Equipped(sources[id], bins, pads)
  }

  ghost predicate Consistent(max: nat, r: Registry) {
    && SourcesConsistent(max, r.sources, r.next)
    && AllEquipped(r.sources, r.bins, r.pads)
    && BinsConsistent(r.bins, r.next)
  }

  ghost predicate IssuedBelow(name: string, next: nat) { exists i: nat :: i < next && name == BinName(i) }

  lemma IssuedLater(name: string, m: nat, n: nat)
    requires IssuedBelow(name, m) && m <= n
    ensures IssuedBelow(name, n) && name != BinName(n)
  {
    var i: nat :| i < m && name == BinName(i);
    if name == BinName(n) { BinNameInjective(i, n); }
  }

  lemma {:induction false} DroppedNames(bins: seq<string>, name: string)
    requires Distinct(bins)
    ensures Distinct(Dropped(bins, name))
    ensures forall n :: n in Dropped(bins, name) <==> n in bins && n != name
  {
    if bins != [] {
      assert bins == [bins[0]] + bins[1..];
      assert bins[0] !in bins[1..];
      DroppedNames(bins[1..], name);
    }
  }

  /** The counter advances; names issued before stay issued, and the new one is new. */
  lemma NextIsNew(bins: seq<string>, next: nat)
    requires BinsConsistent(bins, next)
    ensures BinName(next) !in bins && BinsConsistent(bins, next + 1)
  {
    forall name | name in bins ensures IssuedBelow(name, next + 1) && name != BinName(next) {
      IssuedLater(name, next, next);
      IssuedLater(name, next, next + 1);
    }
  }

  lemma BinJoins(bins: seq<string>, i: nat, next: nat)
    requires BinsConsistent(bins, next) && i < next && BinName(i) !in bins
    ensures BinsConsistent(bins + [BinName(i)], next)
  {
    assert IssuedBelow(BinName(i), next);
  }

  /** A new bin or pad takes nothing away from the sources. */
  lemma MoreEquipment(sources: map<string, nat>, bins: seq<string>, pads: set<string>, b: seq<string>, p: set<string>)
    requires AllEquipped(sources, bins, pads)
    ensures AllEquipped(sources, bins + b, pads + p)
  {
    forall id | id in sources ensures Equipped(sources[id], bins + b, pads + p) {
      assert Equipped(sources[id], bins, pads);
    }
  }

  lemma SourceJoins(max: nat, sources: map<string, nat>, next: nat, id: string, i: nat)
    requires SourcesConsistent(max, sources, next) && Pending(max, sources, next, id, i)
    ensures SourcesConsistent(max, sources[id := i], next)
  {
    assert sources[id := i].Keys == sources.Keys + {id};
  }

  lemma SourceLeaves(max: nat, sources: map<string, nat>, next: nat, id: string)
    requires SourcesConsistent(max, sources, next)
    ensures SourcesConsistent(max, sources - {id}, next)
  {
    assert (sources - {id}).Keys == sources.Keys - {id};
    assert |sources.Keys - {id}| <= |sources.Keys|;
  }

  /** Dropping a source's bin takes no other source's bin. */
  lemma BinLeaves(max: nat, sources: map<string, nat>, bins: seq<string>, pads: set<string>, next: nat, id: string)
    requires SourcesConsistent(max, sources, next) && AllEquipped(sources, bins, pads) && BinsConsistent(bins, next)
    requires id in sources
    ensures AllEquipped(sources - {id}, Dropped(bins, BinName(sources[id])), pads)
    ensures BinsConsistent(Dropped(bins, BinName(sources[id])), next)
  {
    DroppedNames(bins, BinName(sources[id]));
    forall other | other in sources - {id} ensures Equipped(sources[other], Dropped(bins, BinName(sources[id])), pads) {
      assert Equipped(sources[other], bins, pads);
      if BinName(sources[other]) == BinName(sources[id]) { BinNameInjective(sources[other], sources[id]); }
    }
  }

  /** A free place, and an index that is issued and unused. */
  ghost predicate Pending(max: nat, sources: map<string, nat>, next: nat, id: string, i: nat) {
    |sources| < max && id !in sources && i < next && forall other :: other in sources ==> sources[other] != i
  }

  // ------------------------------------------------------- threads and the mutex

  /** Where a thread is in a request; from `Entered` to `Leaving` it holds the mutex. */
  datatype Pc =
    | Idle
    | Waiting(q: Request)
    | Entered(q: Request)
    | Indexed(q: Request, i: nat)
    | Binned(q: Request, i: nat)
    | Padded(q: Request, i: nat)
    | Linked(q: Request, i: nat)
    | Unbinned(q: Request)
    | Leaving(q: Request, answer: Answer)
  {
    predicate Inside() { !Idle? && !Waiting? }

    predicate Valid() {
      && (Indexed? || Binned? || Padded? || Linked? ==> q.Add? && q.gst.factory && (!Indexed? ==> q.gst.binAdd))
      && (Padded? || Linked? ==> q.gst.muxPad && q.gst.srcPad)
      && (Linked? ==> q.gst.link)
      && (Unbinned? ==> q.Remove?)
    }
  }

  /** One step inside the mutex, up to the point of leaving. */
  function Advance(max: nat, r: Registry, pc: Pc): (Registry, Pc)
    requires pc.Inside() && !pc.Leaving?
  {
    match pc
    case Entered(q) => (
      match q
      case Count => (r, Leaving(q, Number(|r.sources|)))
      case Remove(id) =>
        if id !in r.sources then (r, Leaving(q, Flag(false)))
        else (r.(bins := Dropped(r.bins, BinName(r.sources[id]))), Unbinned(q))
      case Add(id, gst) =>
        if !Admitted(max, r, id) then (r, Leaving(q, Flag(false)))
        else (r.(next := r.next + 1), if gst.factory then Indexed(q, r.next) else Leaving(q, Flag(false))))
    case Indexed(q, i) =>
      if q.Add? && q.gst.binAdd then (r.(bins := r.bins + [BinName(i)]), Binned(q, i)) else (r, Leaving(q, Flag(false)))
    case Binned(q, i) => (
      if q.Add? && q.gst.muxPad
      then (r.(pads := r.pads + {PadName(i)}), if q.gst.srcPad then Padded(q, i) else Leaving(q, Flag(false)))
      else (r, Leaving(q, Flag(false))))
    case Padded(q, i) => (r, if q.Add? && q.gst.link then Linked(q, i) else Leaving(q, Flag(false)))
    case Linked(q, i) => (if q.Add? then r.(sources := r.sources[q.id := i]) else r, Leaving(q, Flag(true)))
    case Unbinned(q) => (if q.Remove? then r.(sources := r.sources - {q.id}) else r, Leaving(q, Flag(true)))
    case _ => (r, pc)
  }

  /** The sources have their equipment, and there is room for one more under index `i`. */
  ghost predicate Expecting(max: nat, r: Registry, id: string, i: nat) {
    AllEquipped(r.sources, r.bins, r.pads) && Pending(max, r.sources, r.next, id, i)
  }

  /** What holds of the registry while a thread is inside. */
  ghost predicate Midway(max: nat, r: Registry, pc: Pc) {
    && pc.Valid()
    && SourcesConsistent(max, r.sources, r.next) && BinsConsistent(r.bins, r.next)
    && match pc
       case Unbinned(q) => q.id in r.sources && AllEquipped(r.sources - {q.id}, r.bins, r.pads)
       case Indexed(q, i) => Expecting(max, r, q.id, i) && BinName(i) !in r.bins
       case Binned(q, i) => Expecting(max, r, q.id, i) && BinName(i) in r.bins
       case Padded(q, i) => Expecting(max, r, q.id, i) && Equipped(i, r.bins, r.pads)
       case Linked(q, i) => Expecting(max, r, q.id, i) && Equipped(i, r.bins, r.pads)
       case _ => AllEquipped(r.sources, r.bins, r.pads)
  }

  lemma EntryKeeps(max: nat, r: Registry, q: Request)
    requires Midway(max, r, Entered(q))
    ensures var (r', pc') := Advance(max, r, Entered(q)); Midway(max, r', pc')
  {
    if q.Add? { NextIsNew(r.bins, r.next); }
    if q.Remove? && q.id in r.sources { BinLeaves(max, r.sources, r.bins, r.pads, r.next, q.id); }
  }

  lemma BinStepKeeps(max: nat, r: Registry, pc: Pc)
    requires pc.Indexed? && Midway(max, r, pc)
    ensures var (r', pc') := Advance(max, r, pc); Midway(max, r', pc')
  {
    MoreEquipment(r.sources, r.bins, r.pads, [BinName(pc.i)], {});
    assert r.pads + {} == r.pads;
    BinJoins(r.bins, pc.i, r.next);
  }

  lemma PadStepKeeps(max: nat, r: Registry, pc: Pc)
    requires (pc.Binned? || pc.Padded?) && Midway(max, r, pc)
    ensures var (r', pc') := Advance(max, r, pc); Midway(max, r', pc')
  {
    if pc.Binned? {
      MoreEquipment(r.sources, r.bins, r.pads, [], {PadName(pc.i)});
      assert r.bins + [] == r.bins;
    }
  }

  lemma RegisterKeeps(max: nat, r: Registry, pc: Pc)
    requires pc.Linked? && Midway(max, r, pc)
    ensures var (r', pc') := Advance(max, r, pc); Midway(max, r', pc')
  {
    SourceJoins(max, r.sources, r.next, pc.q.id, pc.i);
    EquippedJoins(r.sources, pc.q.id, pc.i, r.bins, r.pads);
  }

  lemma EquippedJoins(sources: map<string, nat>, id: string, i: nat, bins: seq<string>, pads: set<string>)
    requires AllEquipped(sources, bins, pads) && Equipped(i, bins, pads)
    ensures AllEquipped(sources[id := i], bins, pads)
  {}

  lemma EraseKeeps(max: nat, r: Registry, pc: Pc)
    requires pc.Unbinned? && Midway(max, r, pc)
    ensures var (r', pc') := Advance(max, r, pc); Midway(max, r', pc')
  {
    SourceLeaves(max, r.sources, r.next, pc.q.id);
  }

  lemma AdvanceKeeps(max: nat, r: Registry, pc: Pc)
    requires pc.Inside() && !pc.Leaving? && Midway(max, r, pc)
    ensures var (r', pc') := Advance(max, r, pc); Midway(max, r', pc')
  {
    if pc.Entered? { EntryKeeps(max, r, pc.q); }
    else if pc.Linked? { RegisterKeeps(max, r, pc); }
    else if pc.Unbinned? { EraseKeeps(max, r, pc); }
    else if pc.Indexed? { BinStepKeeps(max, r, pc); }
    else { PadStepKeeps(max, r, pc); }
  }

  // --------------------------------------------------------------- linearization

  function StepsLeft(pc: Pc): nat {
    match pc
    case Entered(_) => 6
    case Indexed(_, _) => 5
    case Binned(_, _) => 4
    case Padded(_, _) => 3
    case Linked(_, _) => 2
    case Unbinned(_) => 1
    case _ => 0
  }

  /** What the thread inside will leave behind, and answer. */
  function Completion(max: nat, r: Registry, pc: Pc): (Registry, Answer)
    requires pc.Inside()
    decreases StepsLeft(pc)
  {
    if pc.Leaving? then (r, pc.answer)
    else
      var (r', pc') := Advance(max, r, pc);
      Completion(max, r', pc')
  }

  lemma OneStepLess(max: nat, r: Registry, pc: Pc)
    requires pc.Inside() && !pc.Leaving?
    ensures var (r', pc') := Advance(max, r, pc); Completion(max, r, pc) == Completion(max, r', pc')
  {}

  lemma BinnedCompletes(max: nat, r: Registry, pc: Pc)
    requires pc.Binned? && pc.Valid()
    ensures var gst := pc.q.gst;
            Completion(max, r, pc) == (
              r.(pads := if gst.muxPad then r.pads + {PadName(pc.i)} else r.pads,
                 sources := if gst.AllWell() then r.sources[pc.q.id := pc.i] else r.sources),
              Flag(gst.AllWell()))
  {
    var (r1, pc1) := Advance(max, r, pc);
    if pc1.Padded? {
      var (r2, pc2) := Advance(max, r1, pc1);
      OneStepLess(max, r1, pc1);
      if pc2.Linked? { OneStepLess(max, r2, pc2); }
    }
  }

  /** Alone inside the mutex, a request that is let in ends as the whole request does. */
  lemma EntryCompletes(max: nat, r: Registry, q: Request)
    ensures Completion(max, r, Entered(q)) == (Served(max, r, q), AnswerTo(max, r, q))
  {
    var (r1, pc1) := Advance(max, r, Entered(q));
    if pc1.Indexed? {
      var (r2, pc2) := Advance(max, r1, pc1);
      OneStepLess(max, r1, pc1);
      if pc2.Binned? { BinnedCompletes(max, r2, pc2); }
    }
    if pc1.Unbinned? { OneStepLess(max, r1, pc1); }
  }

  datatype Entry = Entry(thread: nat, q: Request, answer: Answer)

  /**
   Threads sharing the registry. `log` lists the requests that have left the mutex with their
   answers, and `asked` what each thread has called so far.
   */
  datatype Machine =
    Machine(r: Registry, holder: Option<nat>, threads: seq<Pc>, log: seq<Entry>, asked: seq<seq<Request>>)

  datatype Event = Call(thread: nat, q: Request) | Step(thread: nat)

  function Start(n: nat): Machine {
    Machine(EMPTY, None, seq(n, i => Idle), [], seq(n, i => []))
  }

  /** One event of an interleaving; an event that cannot happen changes nothing. */
  function React(max: nat, m: Machine, e: Event): Machine
    requires |m.asked| == |m.threads|
  {
    var t := e.thread;
    if t >= |m.threads| then m
    else
      var pc := m.threads[t];
      if e.Call? then
        if pc.Idle? then m.(threads := m.threads[t := Waiting(e.q)], asked := m.asked[t := m.asked[t] + [e.q]]) else m
      else if pc.Idle? then m
      else if pc.Waiting? then
        if m.holder == None then m.(holder := Some(t), threads := m.threads[t := Entered(pc.q)]) else m
      else if pc.Leaving? then
        m.(holder := None, threads := m.threads[t := Idle], log := m.log + [Entry(t, pc.q, pc.answer)])
      else
        var (r', pc') := Advance(max, m.r, pc);
        m.(r := r', threads := m.threads[t := pc'])
  }

  /** The requests of a log, one after another, each as one step. */
  function Replay(max: nat, log: seq<Entry>): Registry {
    if log == [] then EMPTY else Served(max, Replay(max, log[..|log| - 1]), log[|log| - 1].q)
  }

  /** Every answer is the one the sequential registry gives at that place. */
  ghost predicate AnswersAgree(max: nat, log: seq<Entry>) {
    forall k :: 0 <= k < |log| ==> log[k].answer == AnswerTo(max, Replay(max, log[..k]), log[k].q)
  }

  function RequestsOf(log: seq<Entry>, t: nat): seq<Request> {
    if log == [] then []
    else RequestsOf(log[..|log| - 1], t) + (if log[|log| - 1].thread == t then [log[|log| - 1].q] else [])
  }

  function InFlight(pc: Pc): seq<Request> { if pc.Idle? then [] else [pc.q] }

  /** Each thread's requests are answered in the order it made them; at most one is in flight. */
  ghost predicate OrderKept(threads: seq<Pc>, log: seq<Entry>, asked: seq<seq<Request>>)
    requires |asked| == |threads|
  {
    forall t :: 0 <= t < |threads| ==> asked[t] == RequestsOf(log, t) + InFlight(threads[t])
  }

  /** The mutex is exclusive. */
  ghost predicate Exclusive(holder: Option<nat>, threads: seq<Pc>) {
    && (holder.Some? ==> holder.value < |threads|)
    && forall t :: 0 <= t < |threads| ==> (threads[t].Inside() <==> holder == Some(t))
  }

  /** The thread inside the mutex. */
  function Current(holder: Option<nat>, threads: seq<Pc>): Pc {
    if holder.Some? && holder.value < |threads| then threads[holder.value] else Idle
  }

  /** The registry is what the log replays to, up to the request inside. */
  ghost predicate Linearized(max: nat, r: Registry, log: seq<Entry>, pc: Pc) {
    var before := Replay(max, log);
    && Midway(max, r, pc)
    && if pc.Inside() then Completion(max, r, pc) == (Served(max, before, pc.q), AnswerTo(max, before, pc.q))
       else r == before
  }

  ghost predicate Invariant(max: nat, m: Machine) {
    && |m.asked| == |m.threads| && Exclusive(m.holder, m.threads)
    && Linearized(max, m.r, m.log, Current(m.holder, m.threads))
    && AnswersAgree(max, m.log) && OrderKept(m.threads, m.log, m.asked)
  }

  lemma LogAppend(max: nat, log: seq<Entry>, e: Entry)
    requires AnswersAgree(max, log) && e.answer == AnswerTo(max, Replay(max, log), e.q)
    ensures AnswersAgree(max, log + [e])
    ensures Replay(max, log + [e]) == Served(max, Replay(max, log), e.q)
    ensures forall t :: RequestsOf(log + [e], t) == RequestsOf(log, t) + (if e.thread == t then [e.q] else [])
  {
    var all := log + [e];
    assert all[..|all| - 1] == log;
    forall k | 0 <= k < |all| ensures all[k].answer == AnswerTo(max, Replay(max, all[..k]), all[k].q) {
      if k < |log| { assert all[..k] == log[..k]; } else { assert all[..k] == log; }
    }
  }

  lemma StartHolds(max: nat, n: nat)
    ensures Invariant(max, Start(n))
  {}

  lemma CallKeeps(max: nat, m: Machine, t: nat, q: Request)
    requires Invariant(max, m)
    ensures Invariant(max, React(max, m, Call(t, q)))
  {
    if t < |m.threads| && m.threads[t].Idle? {
      var m' := React(max, m, Call(t, q));
      assert Current(m'.holder, m'.threads) == Current(m.holder, m.threads);
      assert m'.asked[t] == RequestsOf(m.log, t) + [q];
    }
  }

  lemma EnterKeeps(max: nat, m: Machine, t: nat)
    requires Invariant(max, m) && t < |m.threads| && m.threads[t].Waiting?
    ensures Invariant(max, React(max, m, Step(t)))
  {
    if m.holder == None {
      EntryCompletes(max, m.r, m.threads[t].q);
      FreeIsConsistent(max, m.r, Idle, Entered(m.threads[t].q));
    }
  }

  /** Outside the intermediate steps the registry is consistent. */
  lemma FreeIsConsistent(max: nat, r: Registry, pc: Pc, pc': Pc)
    requires Midway(max, r, pc) && (pc.Idle? || pc.Leaving?)
    requires pc'.Entered? || pc'.Idle?
    ensures Midway(max, r, pc')
  {}

  /** A thread that leaves takes its place at the end of the log. */
  lemma OrderAppends(threads: seq<Pc>, log: seq<Entry>, asked: seq<seq<Request>>, t: nat, e: Entry)
    requires |asked| == |threads| && OrderKept(threads, log, asked)
    requires t < |threads| && InFlight(threads[t]) == [e.q] && e.thread == t
    requires forall u :: RequestsOf(log + [e], u) == RequestsOf(log, u) + (if e.thread == u then [e.q] else [])
    ensures OrderKept(threads[t := Idle], log + [e], asked)
  {}

  lemma LeaveKeeps(max: nat, m: Machine, t: nat)
    requires Invariant(max, m) && t < |m.threads| && m.threads[t].Leaving?
    ensures Invariant(max, React(max, m, Step(t)))
  {
    var e := Entry(t, m.threads[t].q, m.threads[t].answer);
    LogAppend(max, m.log, e);
    OrderAppends(m.threads, m.log, m.asked, t, e);
    FreeIsConsistent(max, m.r, m.threads[t], Idle);
  }

  lemma SameThread(holder: Option<nat>, threads: seq<Pc>, log: seq<Entry>, asked: seq<seq<Request>>, t: nat, pc: Pc)
    requires |asked| == |threads| && Exclusive(holder, threads) && OrderKept(threads, log, asked)
    requires t < |threads| && threads[t].Inside() && pc.Inside() && pc.q == threads[t].q
    ensures Exclusive(holder, threads[t := pc]) && OrderKept(threads[t := pc], log, asked)
    ensures Current(holder, threads) == threads[t] && Current(holder, threads[t := pc]) == pc
  {
    assert InFlight(pc) == InFlight(threads[t]);
  }

  lemma SameRequest(max: nat, r: Registry, pc: Pc)
    requires pc.Inside() && !pc.Leaving?
    ensures Advance(max, r, pc).1.Inside() && Advance(max, r, pc).1.q == pc.q
  {}

  lemma AdvanceLinearized(max: nat, r: Registry, log: seq<Entry>, pc: Pc)
    requires pc.Inside() && !pc.Leaving? && Linearized(max, r, log, pc)
    ensures Linearized(max, Advance(max, r, pc).0, log, Advance(max, r, pc).1)
  {
    AdvanceKeeps(max, r, pc);
    OneStepLess(max, r, pc);
    SameRequest(max, r, pc);
  }

  lemma WorkKeeps(max: nat, m: Machine, t: nat)
    requires Invariant(max, m) && t < |m.threads| && m.threads[t].Inside() && !m.threads[t].Leaving?
    ensures Invariant(max, React(max, m, Step(t)))
  {
    var pc := m.threads[t];
    SameRequest(max, m.r, pc);
    SameThread(m.holder, m.threads, m.log, m.asked, t, Advance(max, m.r, pc).1);
    AdvanceLinearized(max, m.r, m.log, pc);
  }

  lemma ReactKeeps(max: nat, m: Machine, e: Event)
    requires Invariant(max, m)
    ensures Invariant(max, React(max, m, e))
  {
    if e.thread < |m.threads| {
      if e.Call? { CallKeeps(max, m, e.thread, e.q); }
      else if m.threads[e.thread].Waiting? { EnterKeeps(max, m, e.thread); }
      else if m.threads[e.thread].Leaving? { LeaveKeeps(max, m, e.thread); }
      else if !m.threads[e.thread].Idle? { WorkKeeps(max, m, e.thread); }
    }
  }

  function Interleave(max: nat, m: Machine, es: seq<Event>): Machine
    requires |m.asked| == |m.threads|
    ensures |Interleave(max, m, es).asked| == |Interleave(max, m, es).threads|
    decreases |es|
  {
    if es == [] then m else Interleave(max, React(max, m, es[0]), es[1..])
  }

  lemma {:induction false} InterleaveKeeps(max: nat, m: Machine, es: seq<Event>)
    requires Invariant(max, m)
    ensures Invariant(max, Interleave(max, m, es))
    decreases |es|
  {
    if es != [] {
      ReactKeeps(max, m, es[0]);
      InterleaveKeeps(max, React(max, m, es[0]), es[1..]);
    }
  }

  /** The thread inside is between dropping the bin of this source and erasing it. */
  predicate BeingRemoved(m: Machine, id: string) {
    exists t :: 0 <= t < |m.threads| && m.threads[t].Unbinned? && m.threads[t].q == Remove(id)
  }

  /**
   In every state of every interleaving, with failures anywhere: the limit holds, indices are
   below the counter and belong to one source each, no two children share a name, and every
   source has its bin and pad unless its removal is under way.
   */
  lemma EveryStateSafe(max: nat, n: nat, es: seq<Event>, a: string, b: string)
    requires max <= MAX_SOURCES_HARD_LIMIT
    ensures var m := Interleave(max, Start(n), es); var sources := m.r.sources;
            && |sources| <= max <= 32 && Distinct(m.r.bins)
            && (a in sources ==> sources[a] < m.r.next)
            && (a in sources ==> Equipped(sources[a], m.r.bins, m.r.pads) || BeingRemoved(m, a))
            && (a in sources && b in sources && sources[a] == sources[b] ==> a == b)
  {
    StartHolds(max, n);
    InterleaveKeeps(max, Start(n), es);
    var m := Interleave(max, Start(n), es);
    var pc := Current(m.holder, m.threads);
    assert Midway(max, m.r, pc);
    if a in m.r.sources && !(pc.Unbinned? && pc.q == Remove(a)) {
      if pc.Unbinned? {
        assert a in m.r.sources - {pc.q.id};
        assert (m.r.sources - {pc.q.id})[a] == m.r.sources[a];
      }
    }
  }

  /**
   Every interleaving is a sequence of whole requests: whenever the mutex is free the registry
   is what that sequence leaves, every answer is the sequential one, and each thread's
   requests keep their order.
   */
  lemma EveryInterleavingLinearizes(max: nat, n: nat, es: seq<Event>)
    ensures var m := Interleave(max, Start(n), es);
            && (m.holder == None ==> m.r == Replay(max, m.log))
            && AnswersAgree(max, m.log) && OrderKept(m.threads, m.log, m.asked)
  {
    StartHolds(max, n);
    InterleaveKeeps(max, Start(n), es);
  }

  // ------------------------------------------------------------ what requests do

  /** A consistent registry stays so over a whole request. */
  lemma RequestKeeps(max: nat, r: Registry, q: Request)
    requires Consistent(max, r)
    ensures Consistent(max, Served(max, r, q))
  {
    EntryCompletes(max, r, q);
    CompletionKeeps(max, r, Entered(q));
  }

  lemma {:induction false} CompletionKeeps(max: nat, r: Registry, pc: Pc)
    requires pc.Inside() && Midway(max, r, pc)
    ensures Consistent(max, Completion(max, r, pc).0)
    decreases StepsLeft(pc)
  {
    if !pc.Leaving? {
      var next := Advance(max, r, pc);
      AdvanceKeeps(max, r, pc);
      SameRequest(max, r, pc);
      CompletionKeeps(max, next.0, next.1);
      OneStepLess(max, r, pc);
    } else {
      FreeIsConsistent(max, r, pc, Idle);
    }
  }

  /** The names of the indices in use. */
  function Owned(sources: map<string, nat>, name: nat -> string): set<string> {
    set id | id in sources :: name(sources[id])
  }

  function Children(bins: seq<string>): set<string> { set b | b in bins }

  /** Children of the pipeline that no registered source owns. */
  function Orphans(r: Registry): set<string> { Children(r.bins) - Owned(r.sources, BinName) }

  lemma OwnedInsert(sources: map<string, nat>, id: string, i: nat, name: nat -> string)
    requires id !in sources
    ensures Owned(sources[id := i], name) == Owned(sources, name) + {name(i)}
  {
    var more := sources[id := i];
    assert more[id] == i && id in more;
    forall other | other in sources ensures other in more && more[other] == sources[other] {}
  }

  lemma OwnedRemove(sources: map<string, nat>, id: string, name: nat -> string)
    requires id in sources
    requires forall other :: other in sources && other != id ==> name(sources[other]) != name(sources[id])
    ensures Owned(sources - {id}, name) == Owned(sources, name) - {name(sources[id])}
  {
    var fewer := sources - {id};
    forall other | other in sources && other != id ensures other in fewer && fewer[other] == sources[other] {}
  }

  /** The bin of an addition that fails after the bin has joined the pipeline. */
  function LeftBehind(max: nat, r: Registry, q: Request): set<string> {
    if q.Add? && Admitted(max, r, q.id) && q.gst.FailsLate() then {BinName(r.next)} else {}
  }

  lemma RemovalOrphans(max: nat, r: Registry, id: string)
    requires Consistent(max, r) && id in r.sources
    ensures Orphans(Served(max, r, Remove(id))) == Orphans(r) + LeftBehind(max, r, Remove(id))
  {
    var name := BinName(r.sources[id]);
    DroppedNames(r.bins, name);
    assert Children(Dropped(r.bins, name)) == Children(r.bins) - {name};
    forall other | other in r.sources && other != id ensures BinName(r.sources[other]) != name {
      if BinName(r.sources[other]) == name { BinNameInjective(r.sources[other], r.sources[id]); }
    }
    OwnedRemove(r.sources, id, BinName);
    assert name in Owned(r.sources, BinName);
  }

  lemma NewIsUnowned(sources: map<string, nat>, bins: seq<string>, pads: set<string>, next: nat)
    requires AllEquipped(sources, bins, pads) && BinsConsistent(bins, next)
    ensures BinName(next) !in Children(bins) && BinName(next) !in Owned(sources, BinName)
  {
    NextIsNew(bins, next);
    forall id | id in sources ensures BinName(sources[id]) in bins {
      assert Equipped(sources[id], bins, pads);
    }
  }

  lemma ChildrenAppend(bins: seq<string>, name: string)
    ensures Children(bins + [name]) == Children(bins) + {name}
  {}

  lemma AdditionOrphans(max: nat, r: Registry, id: string, gst: Gst)
    requires Consistent(max, r) && Admitted(max, r, id)
    ensures Orphans(Served(max, r, Add(id, gst))) == Orphans(r) + LeftBehind(max, r, Add(id, gst))
  {
    NewIsUnowned(r.sources, r.bins, r.pads, r.next);
    ChildrenAppend(r.bins, BinName(r.next));
    OwnedInsert(r.sources, id, r.next, BinName);
    SetsOf(Children(r.bins), Owned(r.sources, BinName), BinName(r.next));
  }

  lemma SetsOf(children: set<string>, owned: set<string>, name: string)
    requires name !in children && name !in owned
    ensures (children + {name}) - owned == (children - owned) + {name}
    ensures (children + {name}) - (owned + {name}) == children - owned
  {}

  lemma IdleOrphans(max: nat, r: Registry, q: Request)
    requires Served(max, r, q) == r && LeftBehind(max, r, q) == {}
    ensures Orphans(Served(max, r, q)) == Orphans(r) + LeftBehind(max, r, q)
  {}

  /** No request takes out what another left behind. */
  lemma OrphansGrow(max: nat, r: Registry, q: Request)
    requires Consistent(max, r)
    ensures Orphans(Served(max, r, q)) == Orphans(r) + LeftBehind(max, r, q)
  {
    if q.Remove? && q.id in r.sources { RemovalOrphans(max, r, q.id); }
    else if q.Add? && Admitted(max, r, q.id) { AdditionOrphans(max, r, q.id, q.gst); }
    else { IdleOrphans(max, r, q); }
  }

  lemma {:induction false} ReplayConsistent(max: nat, log: seq<Entry>)
    ensures Consistent(max, Replay(max, log))
  {
    if log != [] {
      ReplayConsistent(max, log[..|log| - 1]);
      RequestKeeps(max, Replay(max, log[..|log| - 1]), log[|log| - 1].q);
    }
  }

  /** Request `k` of the log left this bin behind. */
  predicate LeftBy(max: nat, log: seq<Entry>, k: nat, name: string) {
    k < |log| && name in LeftBehind(max, Replay(max, log[..k]), log[k].q)
  }

  ghost predicate LeftBySome(max: nat, log: seq<Entry>, name: string) { exists k: nat :: LeftBy(max, log, k, name) }

  lemma LeftByPrefix(max: nat, log: seq<Entry>, k: nat, name: string)
    requires k < |log| - 1
    ensures LeftBy(max, log, k, name) <==> LeftBy(max, log[..|log| - 1], k, name)
  {
    assert log[..|log| - 1][..k] == log[..k];
  }

  lemma LeftByEarlier(max: nat, log: seq<Entry>, name: string)
    requires log != [] && LeftBySome(max, log[..|log| - 1], name)
    ensures LeftBySome(max, log, name)
  {
    var k: nat :| LeftBy(max, log[..|log| - 1], k, name);
    LeftByPrefix(max, log, k, name);
    assert LeftBy(max, log, k, name);
  }

  lemma LeftByLast(max: nat, log: seq<Entry>, name: string)
    requires log != [] && LeftBySome(max, log, name) && !LeftBy(max, log, |log| - 1, name)
    ensures LeftBySome(max, log[..|log| - 1], name)
  {
    var k: nat :| LeftBy(max, log, k, name);
    LeftByPrefix(max, log, k, name);
    assert LeftBy(max, log[..|log| - 1], k, name);
  }

  lemma LeftByFront(max: nat, log: seq<Entry>, name: string)
    requires log != []
    ensures LeftBySome(max, log, name)
       <==> LeftBySome(max, log[..|log| - 1], name) || LeftBy(max, log, |log| - 1, name)
  {
    if LeftBySome(max, log[..|log| - 1], name) { LeftByEarlier(max, log, name); }
    if LeftBySome(max, log, name) && !LeftBy(max, log, |log| - 1, name) { LeftByLast(max, log, name); }
  }

  /** The bins without a source are exactly those that additions of the run left behind by failing late. */
  lemma {:induction false} OrphansOfRun(max: nat, log: seq<Entry>, name: string)
    ensures name in Orphans(Replay(max, log)) <==> LeftBySome(max, log, name)
  {
    if log != [] {
      var front, q := log[..|log| - 1], log[|log| - 1].q;
      OrphansOfRun(max, front, name);
      ReplayConsistent(max, front);
      OrphansGrow(max, Replay(max, front), q);
      LeftByFront(max, log, name);
      assert Orphans(Replay(max, log)) == Orphans(Replay(max, front)) + LeftBehind(max, Replay(max, front), q);
    }
  }

  // --------------------------------------------------------------- counting

  /** The requests of one kind that were answered with success. */
  function Succeeded(log: seq<Entry>, adding: bool): nat {
    if log == [] then 0
    else
      var e := log[|log| - 1];
      var hit := e.answer == Flag(true) && (if adding then e.q.Add? else e.q.Remove?);
      Succeeded(log[..|log| - 1], adding) + (if hit then 1 else 0)
  }

  lemma ServedCount(max: nat, r: Registry, q: Request)
    ensures |Served(max, r, q).sources| ==
            |r.sources| + (if AnswerTo(max, r, q) != Flag(true) then 0 else if q.Add? then 1 else -1)
  {
    if q.Add? && AnswerTo(max, r, q) == Flag(true) { assert r.sources[q.id := r.next].Keys == r.sources.Keys + {q.id}; }
    if q.Remove? && q.id in r.sources { assert (r.sources - {q.id}).Keys == r.sources.Keys - {q.id}; }
  }

  lemma {:induction false} ReplayCount(max: nat, log: seq<Entry>)
    requires AnswersAgree(max, log)
    ensures |Replay(max, log).sources| == Succeeded(log, true) - Succeeded(log, false)
  {
    if log != [] {
      var front := log[..|log| - 1];
      assert forall k :: 0 <= k < |front| ==> front[k] == log[k] && front[..k] == log[..k];
      assert log[..|log| - 1] == front;
      ReplayCount(max, front);
      ServedCount(max, Replay(max, front), log[|log| - 1].q);
    }
  }

  /**
   In every interleaving a count is answered with the successful additions less the successful
   removals that left the mutex before it, and it is at most the limit.
   */
  lemma CountBalances(max: nat, n: nat, es: seq<Event>, k: nat)
    requires k < |Interleave(max, Start(n), es).log| && Interleave(max, Start(n), es).log[k].q.Count?
    ensures var log := Interleave(max, Start(n), es).log;
            && log[k].answer == Number(|Replay(max, log[..k]).sources|)
            && |Replay(max, log[..k]).sources| == Succeeded(log[..k], true) - Succeeded(log[..k], false) <= max
  {
    EveryInterleavingLinearizes(max, n, es);
    CountIsBalance(max, Interleave(max, Start(n), es).log, k);
  }

  lemma CountIsBalance(max: nat, log: seq<Entry>, k: nat)
    requires AnswersAgree(max, log) && k < |log| && log[k].q.Count?
    ensures log[k].answer == Number(|Replay(max, log[..k]).sources|)
    ensures |Replay(max, log[..k]).sources| == Succeeded(log[..k], true) - Succeeded(log[..k], false) <= max
  {
    AgreePrefix(max, log, k);
    ReplayCount(max, log[..k]);
    ReplayConsistent(max, log[..k]);
  }

  /** The last request on this identifier that was answered with success is an addition. */
  predicate Registered(log: seq<Entry>, id: string) {
    log != [] && (
      var e := log[|log| - 1];
      if e.answer == Flag(true) && e.q.Add? && e.q.id == id then true
      else if e.answer == Flag(true) && e.q.Remove? && e.q.id == id then false
      else Registered(log[..|log| - 1], id))
  }

  lemma ServedRegisters(max: nat, r: Registry, q: Request, id: string)
    ensures id in Served(max, r, q).sources <==>
            if AnswerTo(max, r, q) == Flag(true) && !q.Count? && q.id == id then q.Add? else id in r.sources
  {}

  lemma {:induction false} ReplayRegisters(max: nat, log: seq<Entry>, id: string)
    requires AnswersAgree(max, log)
    ensures id in Replay(max, log).sources <==> Registered(log, id)
  {
    if log != [] {
      var front := log[..|log| - 1];
      AgreePrefix(max, log, |log| - 1);
      assert log[..|log| - 1] == front;
      ReplayRegisters(max, front, id);
      ServedRegisters(max, Replay(max, front), log[|log| - 1].q, id);
    }
  }

  lemma AgreePrefix(max: nat, log: seq<Entry>, k: nat)
    requires AnswersAgree(max, log) && k <= |log|
    ensures AnswersAgree(max, log[..k])
  {
    var before := log[..k];
    forall j | 0 <= j < k ensures before[j].answer == AnswerTo(max, Replay(max, before[..j]), before[j].q) {
      assert before[j] == log[j] && before[..j] == log[..j];
    }
  }

  /**
   In every interleaving an addition is refused exactly when the limit is reached by the
   successful additions less the successful removals before it, its identifier is registered at
   that point, or a step of the framework fails.
   */
  lemma AdditionsRefused(max: nat, n: nat, es: seq<Event>, k: nat)
    requires k < |Interleave(max, Start(n), es).log| && Interleave(max, Start(n), es).log[k].q.Add?
    ensures var log := Interleave(max, Start(n), es).log; var q, before := log[k].q, log[..k];
            && (log[k].answer == Flag(true) || log[k].answer == Flag(false))
            && (log[k].answer == Flag(false) <==>
                || Succeeded(before, true) - Succeeded(before, false) >= max || Registered(before, q.id)
                || !(q.gst.factory && q.gst.binAdd && q.gst.muxPad && q.gst.srcPad && q.gst.link))
  {
    EveryInterleavingLinearizes(max, n, es);
    AdditionRefused(max, Interleave(max, Start(n), es).log, k);
  }

  lemma AdditionRefused(max: nat, log: seq<Entry>, k: nat)
    requires AnswersAgree(max, log) && k < |log| && log[k].q.Add?
    ensures var q, before := log[k].q, log[..k];
            && (log[k].answer == Flag(true) || log[k].answer == Flag(false))
            && (log[k].answer == Flag(false) <==>
                || Succeeded(before, true) - Succeeded(before, false) >= max || Registered(before, q.id)
                || !(q.gst.factory && q.gst.binAdd && q.gst.muxPad && q.gst.srcPad && q.gst.link))
  {
    AgreePrefix(max, log, k);
    ReplayCount(max, log[..k]);
    ReplayRegisters(max, log[..k], log[k].q.id);
  }

  /** In every interleaving a removal succeeds exactly when its identifier is registered at that point. */
  lemma RemovalsSucceed(max: nat, n: nat, es: seq<Event>, k: nat)
    requires k < |Interleave(max, Start(n), es).log| && Interleave(max, Start(n), es).log[k].q.Remove?
    ensures var log := Interleave(max, Start(n), es).log;
            log[k].answer == Flag(Registered(log[..k], log[k].q.id))
  {
    EveryInterleavingLinearizes(max, n, es);
    var log := Interleave(max, Start(n), es).log;
    AgreePrefix(max, log, k);
    ReplayRegisters(max, log[..k], log[k].q.id);
  }

  /** Removing what was just added restores the sources and the bins; the counter and the pads keep the trace. */
  lemma AddThenRemove(max: nat, r: Registry, id: string, gst: Gst)
    requires Consistent(max, r) && AnswerTo(max, r, Add(id, gst)) == Flag(true)
    ensures var r' := Served(max, Served(max, r, Add(id, gst)), Remove(id));
            r' == Registry(r.sources, r.next + 1, r.bins, r.pads + {PadName(r.next)})
  {
    NextIsNew(r.bins, r.next);
    DropLast(r.bins, BinName(r.next));
    assert r.sources[id := r.next] - {id} == r.sources;
  }

  lemma {:induction false} DropLast(bins: seq<string>, name: string)
    requires name !in bins
    ensures Dropped(bins + [name], name) == bins
  {
    if bins != [] {
      assert (bins + [name])[1..] == bins[1..] + [name];
      DropLast(bins[1..], name);
    }
  }
}
