/** The block device with its volatile write queue, and the crash that resolves it. */
module Device {
  import opened Cells

  datatype PWrite = PWrite(off: nat, data: seq<Cell>)

  /** What one unflushed write leaves behind after a power loss. */
  datatype Fate = Dropped | Kept | Torn(keep: nat)

  /** The durable contents and the unflushed writes in application order. */
  datatype DevState = DevState(durable: seq<Cell>, pending: seq<PWrite>)

  predicate InRange(len: nat, w: PWrite) {
    w.off + |w.data| <= len
  }

  predicate Covers(w: PWrite, p: int) {
    w.off <= p < w.off + |w.data|
  }

  function Overwrite(d: seq<Cell>, off: nat, data: seq<Cell>): (r: seq<Cell>)
    requires off + |data| <= |d|
    ensures |r| == |d|
    ensures forall p :: 0 <= p < |d| ==> r[p] == if off <= p < off + |data| then data[p - off] else d[p]
  {
    d[..off] + data + d[off + |data|..]
  }

  predicate WellFormed(s: DevState) {
    forall i :: 0 <= i < |s.pending| ==> InRange(|s.durable|, s.pending[i])
  }

  function Survives(data: seq<Cell>, f: Fate): (r: seq<Cell>)
    ensures r <= data
  {
    match f
    case Dropped => []
    case Kept => data
    case Torn(k) => data[..k % (|data| + 1)]
  }

  /** The disk after the first `n` pending writes met their fates. */
  function Resolve(s: DevState, fates: seq<Fate>, n: nat): (disk: seq<Cell>)
    requires WellFormed(s) && |fates| == |s.pending| && n <= |fates|
    ensures |disk| == |s.durable|
  {
    if n == 0 then s.durable
    else Overwrite(Resolve(s, fates, n - 1), s.pending[n - 1].off, Survives(s.pending[n - 1].data, fates[n - 1]))
  }

  function Crashed(s: DevState, fates: seq<Fate>): (disk: seq<Cell>)
    requires WellFormed(s) && |fates| == |s.pending|
    ensures |disk| == |s.durable|
  {
    Resolve(s, fates, |fates|)
  }

  function AllKept(n: nat): (f: seq<Fate>)
    ensures |f| == n
    ensures forall i :: 0 <= i < n ==> f[i] == Kept
  {
    seq(n, _ => Kept)
  }

  /** The running system's view: every pending write applied. */
  function Current(s: DevState): (disk: seq<Cell>)
    requires WellFormed(s)
    ensures |disk| == |s.durable|
  {
    Crashed(s, AllKept(|s.pending|))
  }

  function Written(s: DevState, off: nat, data: seq<Cell>): (r: DevState)
    requires WellFormed(s) && off + |data| <= |s.durable|
    ensures WellFormed(r)
  {
    s.(pending := s.pending + [PWrite(off, data)])
  }

  function Flushed(s: DevState): (r: DevState)
    requires WellFormed(s)
    ensures WellFormed(r)
  {
    DevState(Current(s), [])
  }

  /** A crash leaves each cell as it was durable, or as some unflushed write set it. */
  lemma {:induction false} CrashCell(s: DevState, fates: seq<Fate>, n: nat, p: nat)
    requires WellFormed(s) && |fates| == |s.pending| && n <= |fates| && p < |s.durable|
    ensures Resolve(s, fates, n)[p] == s.durable[p]
            || exists i :: 0 <= i < n && Covers(s.pending[i], p)
                           && Resolve(s, fates, n)[p] == s.pending[i].data[p - s.pending[i].off]
  {
    if n > 0 {
      CrashCell(s, fates, n - 1, p);
      var w := s.pending[n - 1];
      var d := Survives(w.data, fates[n - 1]);
      if w.off <= p < w.off + |d| {
        assert Covers(s.pending[n - 1], p);
      }
    }
  }

  /** A cell no pending write covers survives every crash. */
  lemma {:induction false} CrashFrame(s: DevState, fates: seq<Fate>, n: nat, p: nat)
    requires WellFormed(s) && |fates| == |s.pending| && n <= |fates| && p < |s.durable|
    requires forall i :: 0 <= i < |s.pending| ==> !Covers(s.pending[i], p)
    ensures Resolve(s, fates, n)[p] == s.durable[p]
  {
    if n > 0 {
      CrashFrame(s, fates, n - 1, p);
      assert !Covers(s.pending[n - 1], p);
    }
  }

  /** Resolving a queue extended at its end starts by resolving the queue. */
  lemma {:induction false} ResolvePrefix(s: DevState, w: PWrite, fates: seq<Fate>, n: nat)
    requires WellFormed(s) && InRange(|s.durable|, w) && |fates| == |s.pending| + 1 && n < |fates|
    ensures Resolve(s.(pending := s.pending + [w]), fates, n) == Resolve(s, fates[..|s.pending|], n)
  {
    if n > 0 {
      ResolvePrefix(s, w, fates, n - 1);
    }
  }

  /** Reads see the write at once. */
  lemma {:induction false} CurrentWritten(s: DevState, off: nat, data: seq<Cell>)
    requires WellFormed(s) && off + |data| <= |s.durable|
    ensures Current(Written(s, off, data)) == Overwrite(Current(s), off, data)
  {
    var n := |s.pending|;
    assert AllKept(n + 1)[..n] == AllKept(n);
    ResolvePrefix(s, PWrite(off, data), AllKept(n + 1), n);
  }

  lemma {:induction false} QuietCurrent(d: seq<Cell>)
    ensures WellFormed(DevState(d, [])) && Current(DevState(d, [])) == d
  {
  }

  /** One operation of the device: a write, a flush, or a power loss with every unflushed write meeting its fate. */
  ghost predicate DevStep(s: DevState, t: DevState) {
    && WellFormed(s)
    && (|| (exists off: nat, data :: off + |data| <= |s.durable| && t == Written(s, off, data))
        || t == Flushed(s)
        || (exists fates :: |fates| == |s.pending| && t == DevState(Crashed(s, fates), [])))
  }

  /** A gapless record that ends in the present state. */
  ghost predicate Recorded(trace: seq<DevState>, s: DevState) {
    && trace != [] && trace[|trace| - 1] == s
    && (forall i :: 0 <= i < |trace| ==> WellFormed(trace[i]))
    && (forall i :: 0 < i < |trace| ==> DevStep(trace[i - 1], trace[i]))
  }

  lemma {:induction false} RecordMore(trace: seq<DevState>, s: DevState, t: DevState)
    requires Recorded(trace, s) && DevStep(s, t) && WellFormed(t)
    ensures Recorded(trace + [t], t)
  {
    hide DevStep, WellFormed;
    var more := trace + [t];
    forall i | 0 < i < |more|
      ensures DevStep(more[i - 1], more[i])
    {
      if i < |trace| {
        assert DevStep(trace[i - 1], trace[i]);
      }
    }
  }

  lemma {:induction false} RecordCut(trace: seq<DevState>, s: DevState, i: nat)
    requires Recorded(trace, s) && i < |trace|
    ensures Recorded(trace[..i + 1], trace[i])
  {
    hide DevStep, WellFormed;
    var cut := trace[..i + 1];
    forall k | 0 < k < |cut|
      ensures DevStep(cut[k - 1], cut[k])
    {
      assert DevStep(trace[k - 1], trace[k]);
    }
  }

  /** The crash-injection device. */
  class CrashDev {
    var durable: seq<Cell>
    var current: seq<Cell>
    var pending: seq<PWrite>
    /** Every state the device has been in since the record was begun; a crash may strike in any of them. */
    var trace: seq<DevState>

    ghost function State(): DevState
      reads this
    {
      DevState(durable, pending)
    }

    ghost predicate Valid()
      reads this
    {
      && WellFormed(State())
      && current == Current(State())
      && Recorded(trace, State())
    }

    constructor (disk: seq<Cell>)
      ensures Valid() && State() == DevState(disk, []) && trace == [State()]
    {
      durable, current, pending := disk, disk, [];
      trace := [DevState(disk, [])];
      QuietCurrent(disk);
    }

    method Write(off: nat, data: seq<Cell>) returns (ok: bool)
      requires Valid()
      modifies this
      ensures Valid()
      ensures ok == (off + |data| <= |old(durable)|)
      ensures ok ==> State() == Written(old(State()), off, data) && trace == old(trace) + [State()]
      ensures !ok ==> State() == old(State()) && trace == old(trace)
    {
      ok := off + |data| <= |current|;
      if ok {
        ghost var s := State();
        CurrentWritten(s, off, data);
        current := Overwrite(current, off, data);
        pending := pending + [PWrite(off, data)];
        assert DevStep(s, Written(s, off, data));
        RecordMore(trace, s, State());
        trace := trace + [DevState(durable, pending)];
      }
    }

    method Flush()
      requires Valid()
      modifies this
      ensures Valid() && State() == Flushed(old(State())) && trace == old(trace) + [State()]
    {
      hide Current;
      RecordMore(trace, State(), Flushed(State()));
      QuietCurrent(current);
      durable := current;
      pending := [];
      trace := trace + [DevState(durable, pending)];
    }

    /** Start the record of states here. */
    method Begin()
      requires Valid()
      modifies this`trace
      ensures Valid() && trace == [State()]
    {
      hide Current;
      trace := [DevState(durable, pending)];
    }

    /** Power loss in state `i` of the record: each write unflushed then is kept, dropped or torn on its own, in
        order, and what the record holds after state `i` never happened. */
    method Crash(i: nat, fates: seq<Fate>)
      requires Valid() && i < |trace| && |fates| == |trace[i].pending|
      modifies this
      ensures Valid() && State() == DevState(Crashed(old(trace)[i], fates), [])
      ensures trace == old(trace)[..i + 1] + [State()]
    {
      hide Current, Crashed;
      var disk := ResolveAll(trace[i], fates);
      RecordCut(trace, State(), i);
      assert DevStep(trace[i], DevState(disk, []));
      RecordMore(trace[..i + 1], trace[i], DevState(disk, []));
      QuietCurrent(disk);
      durable, current, pending := disk, disk, [];
      trace := trace[..i + 1] + [DevState(disk, [])];
    }
  }

  lemma {:induction false} OverwriteNothing(d: seq<Cell>, off: nat)
    requires off <= |d|
    ensures Overwrite(d, off, []) == d
  {
  }

  method ResolveAll(s: DevState, fates: seq<Fate>) returns (disk: seq<Cell>)
    requires WellFormed(s) && |fates| == |s.pending|
    ensures disk == Crashed(s, fates)
  {
    disk := s.durable;
    for i := 0 to |s.pending|
      invariant disk == Resolve(s, fates, i)
    {
      hide Overwrite;
      var w := s.pending[i];
      assert InRange(|s.durable|, s.pending[i]);
      match fates[i] {
        case Dropped =>
          OverwriteNothing(disk, w.off);
        case Kept =>
          disk := Overwrite(disk, w.off, w.data);
        case Torn(k) =>
          disk := Overwrite(disk, w.off, w.data[..k % (|w.data| + 1)]);
      }
    }
  }
}
