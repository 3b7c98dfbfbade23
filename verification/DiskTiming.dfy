/** code/machine/disk.cc: how long a request takes.  The platter turns one sector per RotationTime; during slot `q`, the
    ticks from 500 * q to 500 * (q + 1), sector `q % 32` of the current track passes under the head and into the track
    buffer. */
module DiskTiming {

  const ROTATION_TIME := 500
  const SEEK_TIME := 500
  const SECTORS_PER_TRACK := 32
  const NUM_SECTORS := 1024

  function Track(sector: nat): nat {
    sector / 32
  }

  function Abs(x: int): nat {
    if x < 0 then -x else x
  }

  function SeekTime(lastSector: nat, newSector: nat): (seek: nat)
    ensures seek % 500 == 0 && (seek == 0 <==> Track(newSector) == Track(lastSector))
  {
    Abs(Track(newSector) - Track(lastSector)) * SEEK_TIME
  }

  /** The sectors from `a` to `b` that begin a track, other than `a` itself. */
  function TrackStarts(a: nat, b: nat): set<int> {
    set x | a < x <= b && x % 32 == 0
  }

  lemma NextTrack(b: nat)
    requires b > 0
    ensures Track(b) == Track(b - 1) + if b % 32 == 0 then 1 else 0
  {
  }

  lemma {:induction false} CountTracks(a: nat, b: nat)
    requires a <= b
    ensures |TrackStarts(a, b)| == Track(b) - Track(a)
    decreases b - a
  {
    hide Track;
    if a == b {
      assert TrackStarts(a, b) == {};
    } else {
      CountTracks(a, b - 1);
      NextTrack(b);
      assert TrackStarts(a, b) == TrackStarts(a, b - 1) + if b % 32 == 0 then {b} else {};
    }
  }

  /** A seek takes 500 ticks for every track boundary between the two sectors, in either direction. */
  lemma SeekCountsTracks(a: nat, b: nat)
    requires a <= b
    ensures SeekTime(a, b) == SeekTime(b, a) == 500 * |TrackStarts(a, b)|
  {
    hide Track;
    CountTracks(a, b);
  }

  /** How long from `t` to the next sector boundary. */
  function RoundUp(t: nat): (rotation: nat)
    ensures (t + rotation) % 500 == 0 && rotation < 500
  {
    var over := t % ROTATION_TIME;
    if over > 0 then ROTATION_TIME - over else 0
  }

  /** The sector passes under the head during slot `q`. */
  predicate UnderHead(sector: nat, q: int) {
    q % 32 == sector % 32
  }

  /** How many slots from slot `from` to the next one in which sector `to` passes. */
  function ModuloDiff(to: nat, from: nat): (d: nat)
    ensures d < 32 && UnderHead(to, from + d)
    ensures forall q :: from <= q < from + d ==> !UnderHead(to, q)
  {
    (to % SECTORS_PER_TRACK - from % SECTORS_PER_TRACK + SECTORS_PER_TRACK) % SECTORS_PER_TRACK
  }

  /** Where the head was sent last, and since when the track buffer has been filling. */
  datatype Head = Head(lastSector: nat, bufferInit: nat)

  function TimeAfter(h: Head, now: nat, newSector: nat): (t: nat)
    ensures t % 500 == 0 && now + SeekTime(h.lastSector, newSector) <= t < now + SeekTime(h.lastSector, newSector) + 500
  {
    now + SeekTime(h.lastSector, newSector) + RoundUp(now + SeekTime(h.lastSector, newSector))
  }

  predicate Hit(h: Head, now: nat, newSector: nat)
    requires h.bufferInit <= now
  {
    && SeekTime(h.lastSector, newSector) == 0
    && (TimeAfter(h, now, newSector) - h.bufferInit) / ROTATION_TIME
         > ModuloDiff(newSector, h.bufferInit / ROTATION_TIME)
  }

  function ComputeLatency(h: Head, now: nat, newSector: nat, writing: bool): nat
    requires h.bufferInit <= now
  {
    if !writing && Hit(h, now, newSector) then ROTATION_TIME
    else
      var seek, timeAfter := SeekTime(h.lastSector, newSector), TimeAfter(h, now, newSector);
      var rotation := RoundUp(now + seek) + ModuloDiff(newSector, timeAfter / ROTATION_TIME) * ROTATION_TIME;
      seek + rotation + ROTATION_TIME
  }

  function UpdateLast(h: Head, now: nat, newSector: nat): Head {
    Head(newSector, if SeekTime(h.lastSector, newSector) != 0 then TimeAfter(h, now, newSector) else h.bufferInit)
  }

  /** Since the buffer began to fill, and before `t`, the sector passed under the head from its start to its end. */
  ghost predicate Buffered(h: Head, sector: nat, t: nat) {
    exists q :: UnderHead(sector, q) && h.bufferInit <= 500 * q && 500 * (q + 1) <= t
  }

  /** The test for the track buffer is exact. */
  lemma HitIffBuffered(h: Head, now: nat, newSector: nat)
    requires h.bufferInit <= now && h.bufferInit % 500 == 0
    ensures Hit(h, now, newSector) <==>
            Track(newSector) == Track(h.lastSector) && Buffered(h, newSector, TimeAfter(h, now, newSector))
  {
  }

  /** A read that the buffer serves takes one RotationTime. */
  lemma HitIsQuick(h: Head, now: nat, newSector: nat)
    requires h.bufferInit <= now && Hit(h, now, newSector)
    ensures ComputeLatency(h, now, newSector, false) == 500
  {
  }

  /** A request that the buffer cannot serve ends one RotationTime after the first instant, once the head is settled on
      the track, at which the target sector begins. */
  lemma MissIsEarliest(h: Head, now: nat, newSector: nat, writing: bool)
    requires h.bufferInit <= now && (writing || !Hit(h, now, newSector))
    ensures var start := now + ComputeLatency(h, now, newSector, writing) - 500;
            && start % 500 == 0 && UnderHead(newSector, start / 500)
            && start >= TimeAfter(h, now, newSector)
            && forall q :: TimeAfter(h, now, newSector) <= 500 * q < start ==> !UnderHead(newSector, q)
  {
  }

  /** Every request takes at least one RotationTime, and never more than the seek and 33 of them. */
  lemma LatencyBounds(h: Head, now: nat, newSector: nat, writing: bool)
    requires h.bufferInit <= now
    ensures 500 <= ComputeLatency(h, now, newSector, writing) < SeekTime(h.lastSector, newSector) + 33 * 500
  {
  }

  // ----- Runs -----

  /** When the head settled on which track. */
  datatype Arrival = Arrival(at: nat, track: nat)

  /** The drive at time `now`; a request in progress ends at `doneAt`. */
  datatype Drive = Drive(now: nat, head: Head, active: bool, doneAt: nat, arrivals: seq<Arrival>)

  function Start(): Drive {
    Drive(0, Head(0, 0), false, 0, [Arrival(0, 0)])
  }

  datatype Step = Pass(ticks: nat) | Request(sector: nat, writing: bool) | Complete

  predicate Enabled(d: Drive, step: Step) {
    match step
    case Pass(_) => true
    case Request(sector, _) => sector < NUM_SECTORS && !d.active
    case Complete => d.active && d.now >= d.doneAt
  }

  /** The buffer started filling when the head settled, at a sector boundary, and before any request can be made. */
  ghost predicate Inv(d: Drive) {
    && d.head.bufferInit % 500 == 0
    && d.arrivals != [] && d.arrivals[|d.arrivals| - 1] == Arrival(d.head.bufferInit, Track(d.head.lastSector))
    && d.head.bufferInit <= if d.active then d.doneAt - 500 else d.now
  }

  function Next(d: Drive, step: Step): Drive
    requires Enabled(d, step) && (d.active || d.head.bufferInit <= d.now)
  {
    match step
    case Pass(ticks) => d.(now := d.now + ticks)
    case Request(sector, writing) =>
      var head := UpdateLast(d.head, d.now, sector);
      var moved := SeekTime(d.head.lastSector, sector) != 0;
      Drive(d.now, head, true, d.now + ComputeLatency(d.head, d.now, sector, writing),
            if moved then d.arrivals + [Arrival(head.bufferInit, Track(sector))] else d.arrivals)
    case Complete => d.(active := false)
  }

  lemma StepOk(d: Drive, step: Step)
    requires Inv(d) && Enabled(d, step)
    ensures Inv(Next(d, step))
  {
  }

  /** A request on another track moves the head, which settles at the first sector boundary after the seek; from then
      on the track buffer fills.  A request on the same track leaves the buffer filling. */
  lemma RequestMoves(d: Drive, sector: nat, writing: bool)
    requires Inv(d) && Enabled(d, Request(sector, writing))
    ensures var d' := Next(d, Request(sector, writing));
            && d'.head.lastSector == sector && d'.active && d'.now == d.now
            && d'.doneAt == d.now + ComputeLatency(d.head, d.now, sector, writing)
            && if sector / 32 == d.head.lastSector / 32 then
                 d'.head.bufferInit == d.head.bufferInit && d'.arrivals == d.arrivals
               else
                 var settled := d.now + SeekTime(d.head.lastSector, sector);
                 && d'.head.bufferInit % 500 == 0 && settled <= d'.head.bufferInit < settled + 500
                 && d'.arrivals == d.arrivals + [Arrival(d'.head.bufferInit, sector / 32)]
  {
  }

  ghost predicate Trace(ds: seq<Drive>, steps: seq<Step>) {
    && |ds| == |steps| + 1 && ds[0] == Start()
    && forall i :: 0 <= i < |steps| ==>
         Enabled(ds[i], steps[i]) && (Inv(ds[i]) ==> ds[i + 1] == Next(ds[i], steps[i]))
  }

  lemma {:induction false} TraceOk(ds: seq<Drive>, steps: seq<Step>, k: nat)
    requires Trace(ds, steps) && k < |ds|
    ensures Inv(ds[k])
  {
    if k > 0 {
      hide Next;
      TraceOk(ds, steps, k - 1);
      StepOk(ds[k - 1], steps[k - 1]);
    }
  }

  function Ticks(steps: seq<Step>, k: nat): nat
    requires k <= |steps|
  {
    if k == 0 then 0 else Ticks(steps, k - 1) + if steps[k - 1].Pass? then steps[k - 1].ticks else 0
  }

  /** The last request has not been completed. */
  predicate InProgress(steps: seq<Step>, k: nat)
    requires k <= |steps|
  {
    k > 0 && (steps[k - 1].Request? || (steps[k - 1].Pass? && InProgress(steps, k - 1)))
  }

  /** In every run the clock shows the ticks that have passed, and the drive is busy exactly from a request to its
      completion. */
  lemma {:induction false} ClockAndBusy(ds: seq<Drive>, steps: seq<Step>, k: nat)
    requires Trace(ds, steps) && k < |ds|
    ensures ds[k].now == Ticks(steps, k) && ds[k].active == InProgress(steps, k)
  {
    if k > 0 {
      hide ComputeLatency, UpdateLast;
      ClockAndBusy(ds, steps, k - 1);
      TraceOk(ds, steps, k - 1);
    }
  }

  /** Which track the head is on at time `t`. */
  function TrackAt(arrivals: seq<Arrival>, t: int): nat
    requires arrivals != []
  {
    var n := |arrivals| - 1;
    if n == 0 || arrivals[n].at <= t then arrivals[n].track else TrackAt(arrivals[..n], t)
  }

  /** In any run, a read is served from the buffer only if its sector has really been read: by the time the request
      ends, the sector passed under the head once from start to end while the head was on its track. */
  lemma HitMeansSeen(ds: seq<Drive>, steps: seq<Step>, k: nat, sector: nat)
    requires Trace(ds, steps) && k < |ds| && !ds[k].active
    ensures Inv(ds[k])
    ensures Hit(ds[k].head, ds[k].now, sector) ==>
              exists q :: UnderHead(sector, q) && 500 * (q + 1) <= ds[k].now + ROTATION_TIME &&
                          forall t :: 500 * q <= t ==> TrackAt(ds[k].arrivals, t) == Track(sector)
  {
    TraceOk(ds, steps, k);
    var h := ds[k].head;
    if Hit(h, ds[k].now, sector) {
      HitIffBuffered(h, ds[k].now, sector);
      var q :| UnderHead(sector, q) && h.bufferInit <= 500 * q && 500 * (q + 1) <= TimeAfter(h, ds[k].now, sector);
      hide SeekTime, Track;
      assert forall t :: 500 * q <= t ==> TrackAt(ds[k].arrivals, t) == Track(sector);
    }
  }

  // ----- The device -----

  class Disk {
    var active: bool
    var lastSector: nat
    var bufferInit: nat

    ghost function Where(): Head
      reads this
    {
      Head(lastSector, bufferInit)
    }

    constructor ()
      ensures !active && Where() == Head(0, 0)
    {
      active, lastSector, bufferInit := false, 0, 0;
    }

    method TimeToSeek(totalTicks: nat, newSector: nat) returns (seek: nat, rotation: nat)
      ensures seek == SeekTime(lastSector, newSector)
      ensures totalTicks + seek + rotation == TimeAfter(Where(), totalTicks, newSector)
    {
      var newTrack, oldTrack := newSector / SECTORS_PER_TRACK, lastSector / SECTORS_PER_TRACK;
      seek := Abs(newTrack - oldTrack) * SEEK_TIME;
      var over := (totalTicks + seek) % ROTATION_TIME;
      rotation := 0;
      if over > 0 {
        rotation := ROTATION_TIME - over;
      }
    }

    method Latency(totalTicks: nat, newSector: nat, writing: bool) returns (ticks: nat)
      requires bufferInit <= totalTicks
      ensures ticks == ComputeLatency(Where(), totalTicks, newSector, writing)
    {
      hide ModuloDiff, SeekTime;
      var seek, rotation := TimeToSeek(totalTicks, newSector);
      var timeAfter := totalTicks + seek + rotation;
      if !writing && seek == 0 &&
         (timeAfter - bufferInit) / ROTATION_TIME > ModuloDiff(newSector, bufferInit / ROTATION_TIME) {
        return ROTATION_TIME;
      }
      rotation := rotation + ModuloDiff(newSector, timeAfter / ROTATION_TIME) * ROTATION_TIME;
      return seek + rotation + ROTATION_TIME;
    }

    method NoteSector(totalTicks: nat, newSector: nat)
      modifies this
      ensures Where() == UpdateLast(old(Where()), totalTicks, newSector) && active == old(active)
    {
      var seek, rotate := TimeToSeek(totalTicks, newSector);
      if seek != 0 {
        bufferInit := totalTicks + seek + rotate;
      }
      lastSector := newSector;
    }

    /** ReadRequest and WriteRequest, apart from the transfer: the delay with which the interrupt is scheduled. */
    method Request(totalTicks: nat, sectorNumber: nat, writing: bool) returns (ticks: nat)
      requires !active && sectorNumber < NUM_SECTORS && bufferInit <= totalTicks
      modifies this
      ensures active && ticks == ComputeLatency(old(Where()), totalTicks, sectorNumber, writing)
      ensures Where() == UpdateLast(old(Where()), totalTicks, sectorNumber)
    {
      ticks := Latency(totalTicks, sectorNumber, writing);
      active := true;
      NoteSector(totalTicks, sectorNumber);
    }

    method CallBack()
      modifies this
      ensures !active && Where() == old(Where())
    {
      active := false;
    }
  }
}
