/**
 The poll-driven image phase (tools/pakon_replay.c, sm_scan_loop).  The loop of
 the tool need not end: without a cap the film may go on, and a device may stay
 busy.  The method below therefore runs it for at most `budget` windows, so that
 its contract speaks about every prefix of every run; when a cap is set and busy
 streaks are bounded, an explicit budget is proved to be enough.
 */
module DrivenLoop {
  import opened Arith
  import opened Bytes
  import opened Session
  import opened Chunks

  const POLL_HOST: seq<byte> := [0x03, 0x01, 0x10]
  const WINDOW := 20480
  const BUSY := 0x80
  const LOAD_WAIT := 24
  const MAX_EMPTY := 2
  const ULONGLONG := 0x1_0000_0000_0000_0000

  datatype Stop = Running | EndOfFilm | Cap | NoFilmFed | StreamEnded

  // ---- what the events say ------------------------------------------------------------

  predicate ReadOrPoll(e: Event) {
    (e.Read? && e.want == WINDOW) || (e.Framed? && e.frame == POLL_HOST)
  }

  /** Nothing but image reads and status polls. */
  ghost predicate OnlyPolls(ev: seq<Event>) {
    forall k :: 0 <= k < |ev| ==> ReadOrPoll(ev[k])
  }

  ghost function NonEmpty(ev: seq<Event>): seq<seq<byte>> {
    if ev == [] then []
    else
      NonEmpty(ev[..|ev| - 1]) +
      match ev[|ev| - 1] case Read(_, _, bytes) => if bytes != [] then [bytes] else [] case _ => []
  }

  predicate SaysBusy(e: Event) {
    e.Framed? && e.ok && e.status == BUSY
  }

  /** Polls since the last chunk that did not say busy: the windows in which nothing was coming. */
  ghost function Idle(ev: seq<Event>): nat {
    if ev == [] then 0
    else
      var e := ev[|ev| - 1];
      if e.Read? && e.bytes != [] then 0
      else Idle(ev[..|ev| - 1]) + if e.Framed? && !SaysBusy(e) then 1 else 0
  }

  /** A poll says busy exactly if it is answered by a frame whose second data byte is 0x80. */
  lemma SaysBusyIff(r: Reply)
    ensures SaysBusy(Framed([0x03, 0x01, 0x10], Answered(r), StatusOf(r))) <==>
            Answered(r) && r.bytes[1] >= 2 && r.bytes[3] == 0x80
  {
    hide Answered, StatusOf;
    StatusMeans(r);
  }

  /** The poll at `k` did not say busy, and no data came after it. */
  predicate IdlePoll(ev: seq<Event>, k: nat) {
    k < |ev| && ev[k].Framed? && !(ev[k].ok && ev[k].status == 0x80) &&
    forall j :: k < j < |ev| ==> !(ev[j].Read? && ev[j].bytes != [])
  }

  lemma IdleBefore(ev: seq<Event>, k: nat)
    requires ev != [] && k < |ev| - 1
    ensures IdlePoll(ev, k) <==> IdlePoll(ev[..|ev| - 1], k) && !(ev[|ev| - 1].Read? && ev[|ev| - 1].bytes != [])
  {
    var front := ev[..|ev| - 1];
    assert forall j :: 0 <= j < |front| ==> front[j] == ev[j];
  }

  lemma IdleMore(ev: seq<Event>, e: Event)
    ensures Idle(ev + [e]) == if e.Read? && e.bytes != [] then 0 else Idle(ev) + if e.Framed? && !SaysBusy(e) then 1 else 0
  {
    assert (ev + [e])[..|ev|] == ev;
  }

  /** Idle windows are counted by such polls. */
  lemma {:induction false} IdleCounts(ev: seq<Event>)
    ensures Idle(ev) == |set k: nat | k < |ev| && IdlePoll(ev, k)|
  {
    var polls := set k: nat | k < |ev| && IdlePoll(ev, k);
    if ev == [] {
      assert polls == {};
    } else {
      var n := |ev| - 1;
      var front, e := ev[..n], ev[n];
      IdleCounts(front);
      IdleMore(front, e);
      assert ev == front + [e];
      hide Idle;
      assert IdlePoll(ev, n) <==> e.Framed? && !SaysBusy(e);
      hide IdlePoll, SaysBusy;
      forall k: nat | k < n ensures IdlePoll(ev, k) <==> IdlePoll(front, k) && !(e.Read? && e.bytes != []) {
        IdleBefore(ev, k);
      }
      var before := set k: nat | k < |front| && IdlePoll(front, k);
      var last := if IdlePoll(ev, n) then {n} else {};
      assert polls == if e.Read? && e.bytes != [] then {} else before + last;
      assert before !! last;
    }
  }

  lemma Grow(ev: seq<Event>, e: Event)
    requires OnlyPolls(ev) && ReadOrPoll(e)
    ensures OnlyPolls(ev + [e])
    ensures NonEmpty(ev + [e]) == if e.Read? && e.bytes != [] then NonEmpty(ev) + [e.bytes] else NonEmpty(ev)
    ensures Idle(ev + [e]) == if e.Read? && e.bytes != [] then 0
                              else Idle(ev) + if e.Framed? && !SaysBusy(e) then 1 else 0
  {
    assert (ev + [e])[..|ev|] == ev;
  }

  lemma BytesOf(e: Event, f: Event)
    requires e.Read? && f.Framed?
    ensures ImageBytes([e]) == e.bytes && ImageBytes([e, f]) == e.bytes
  {
    assert [e][..0] == [] && [e, f][..1] == [e];
  }

  // ---- termination ----------------------------------------------------------------------

  /** From tick `t` the device delivers nothing and then answers a poll with busy. */
  predicate BusyWindow(reply: nat -> Reply, t: nat) {
    Got(reply(t), WINDOW) == [] && Answered(reply(t + 1)) && StatusOf(reply(t + 1)) == BUSY
  }

  ghost predicate BusyRun(reply: nat -> Reply, t: nat, n: nat) {
    n == 0 || (BusyRun(reply, t, n - 1) && BusyWindow(reply, t + 2 * (n - 1)))
  }

  /** No streak of busy windows is longer than `b`. */
  ghost predicate BusyBounded(reply: nat -> Reply, b: nat) {
    forall t: nat, n: nat :: BusyRun(reply, t, n) ==> n <= b
  }

  /** Bytes to the cap, then idle windows left, then busy polls left, as one number. */
  function Measure(cap: nat, bytes: nat, idle: nat, streak: nat, b: nat): int {
    (Max(cap - bytes, 0) * LOAD_WAIT + LOAD_WAIT - idle) * (b + 1) + b - streak
  }

  /** Enough windows for any run that starts with `bytes` bytes in the file. */
  function Enough(cap: nat, bytes: nat, b: nat): int {
    Measure(cap, bytes, 0, 0, b) + 1
  }

  lemma MeasureChunk(cap: nat, bytes: nat, got: nat, idle: nat, streak: nat, b: nat)
    requires 0 < got && bytes + got < cap && idle < LOAD_WAIT && streak <= b
    ensures Measure(cap, bytes + got, 0, 0, b) < Measure(cap, bytes, idle, streak, b)
  {
    Times((cap - bytes - got) * LOAD_WAIT + LOAD_WAIT, (cap - bytes) * LOAD_WAIT + LOAD_WAIT - idle, b);
  }

  lemma MeasureIdle(cap: nat, bytes: nat, idle: nat, streak: nat, b: nat)
    requires idle < LOAD_WAIT && streak <= b
    ensures Measure(cap, bytes, idle + 1, 0, b) < Measure(cap, bytes, idle, streak, b)
  {
    var w := Max(cap - bytes, 0) * LOAD_WAIT + LOAD_WAIT - idle;
    Times(w - 1, w, b);
  }

  lemma Times(v: int, w: int, b: nat)
    requires v < w
    ensures v * (b + 1) + b < w * (b + 1)
  {
    TimesMonotone(v + 1, w, b + 1);
    assert (v + 1) * (b + 1) == v * (b + 1) + (b + 1);
  }

  lemma {:induction false} TimesMonotone(v: int, w: int, c: nat)
    requires v <= w
    ensures v * c <= w * c
  {
    if c > 0 {
      TimesMonotone(v, w, c - 1);
      assert v * c == v * (c - 1) + v && w * c == w * (c - 1) + w;
    }
  }

  lemma EnoughFromEmpty(cap: nat, bytes: nat, b: nat)
    ensures Enough(cap, bytes, b) <= Enough(cap, 0, b)
  {
    TimesMonotone(Max(cap - bytes, 0) * LOAD_WAIT + LOAD_WAIT, cap * LOAD_WAIT + LOAD_WAIT, b + 1);
  }

  lemma MeasurePositive(cap: nat, bytes: nat, idle: nat, streak: nat, b: nat)
    requires idle < LOAD_WAIT && streak <= b
    ensures Measure(cap, bytes, idle, streak, b) > 0
  {
    var w := Max(cap - bytes, 0) * LOAD_WAIT + LOAD_WAIT - idle;
    TimesMonotone(1, w, b + 1);
  }

  // ---- the loop ---------------------------------------------------------------------------

  /** State at the loop head after the events `ev`. */
  ghost predicate AtHead(ev: seq<Event>, watch: RollWatch, idle: nat)
    reads watch
  {
    OnlyPolls(ev) && watch.Valid() && watch.trailWhite < TRAIL_WHITE && watch.chunks == NonEmpty(ev) &&
    RollGoesOn(NonEmpty(ev)) && idle == Idle(ev) && idle < (if watch.filmSeen then MAX_EMPTY else LOAD_WAIT)
  }

  /** Why the loop stopped after the events `ev`, with `bytes` bytes in the file. */
  ghost predicate Stopped(stop: Stop, ev: seq<Event>, cap: nat, bytes: nat) {
    match stop
    case Running => false
    case EndOfFilm => EndOfRoll(NonEmpty(ev))
    case Cap => 0 < cap <= bytes && RollGoesOn(NonEmpty(ev)) && ev != [] && ev[|ev| - 1].Read?
    case NoFilmFed => !FilmSeen(NonEmpty(ev)) && Idle(ev) == LOAD_WAIT
    case StreamEnded => FilmSeen(NonEmpty(ev)) && Idle(ev) == MAX_EMPTY && RollGoesOn(NonEmpty(ev))
  }

  /** One window: a read with data, or an empty read and one poll. */
  ghost predicate IsWindow(w: seq<Event>) {
    w != [] && w[0].Read? && w[0].want == WINDOW &&
    if w[0].bytes != [] then |w| == 1 else |w| == 2 && w[1].Framed? && w[1].frame == POLL_HOST
  }

  /** Nothing ends the loop after these events, which began with `bytes` bytes in the file. */
  ghost predicate GoesOn(ev: seq<Event>, cap: nat, bytes: nat) {
    RollGoesOn(NonEmpty(ev)) &&
    Idle(ev) < (if FilmSeen(NonEmpty(ev)) then MAX_EMPTY else LOAD_WAIT) &&
    (cap > 0 && |ImageBytes(ev)| > 0 ==> bytes + |ImageBytes(ev)| < cap)
  }

  /** `n` whole windows, none of which begins after the loop should have ended. */
  ghost predicate Windows(ev: seq<Event>, cap: nat, bytes: nat, n: nat)
    decreases n
  {
    if n == 0 then ev == []
    else
      exists m :: 0 <= m <= |ev| && Windows(ev[..m], cap, bytes, n - 1) && GoesOn(ev[..m], cap, bytes) && IsWindow(ev[m..])
  }

  lemma WindowMore(ev: seq<Event>, more: seq<Event>, cap: nat, bytes: nat, n: nat)
    requires Windows(ev, cap, bytes, n) && GoesOn(ev, cap, bytes) && IsWindow(more)
    ensures Windows(ev + more, cap, bytes, n + 1)
  {
    hide GoesOn, IsWindow;
    var all := ev + more;
    assert all[..|ev|] == ev && all[|ev|..] == more;
  }

  /** A window with data. */
  method TakeChunk(dev: Device, buf: array<byte>, got: nat, watch: RollWatch, idle: nat, cap: nat,
        ghost ev: seq<Event>, ghost e: Event)
    returns (stop: Stop)
    requires 0 < got <= buf.Length && AtHead(ev, watch, idle) && ReadOrPoll(e) && e.Read? && e.bytes == buf[..got]
    modifies dev`image, dev`imgBytes, watch
    ensures dev.image == old(dev.image) + e.bytes && dev.imgBytes == old(dev.imgBytes) + got
    ensures OnlyPolls(ev + [e]) && (watch.filmSeen <==> FilmSeen(NonEmpty(ev + [e])))
    ensures stop.Running? ==> AtHead(ev + [e], watch, 0) && (cap > 0 ==> dev.imgBytes < cap)
    ensures !stop.Running? ==> Stopped(stop, ev + [e], cap, dev.imgBytes)
  {
    hide EndOfRoll, RollGoesOn, NonEmpty, Idle;
    Grow(ev, e);
    dev.Save(buf, got);
    var over := watch.Feed(buf, got);
    if over { return EndOfFilm; }
    RollOn(NonEmpty(ev), e.bytes);
    return if cap > 0 && dev.imgBytes >= cap then Cap else Running;
  }

  /** A window without data: poll the host. */
  method PollHost(dev: Device, watch: RollWatch, idle: nat, cap: nat, ghost ev: seq<Event>, ghost e: Event)
    returns (stop: Stop, idle': nat, busy: bool, ghost f: Event)
    requires AtHead(ev, watch, idle) && ReadOrPoll(e) && e.Read? && e.bytes == []
    modifies dev`clock, dev`trace
    ensures dev.trace == old(dev.trace) + [f] && f.Framed? && f.frame == POLL_HOST && OnlyPolls(ev + [e] + [f])
    ensures dev.clock == old(dev.clock) + 1
    ensures busy ==> Answered(dev.reply(old(dev.clock))) && StatusOf(dev.reply(old(dev.clock))) == BUSY
    ensures NonEmpty(ev + [e] + [f]) == NonEmpty(ev)
    ensures idle' == if busy then idle else idle + 1
    ensures stop.Running? ==> AtHead(ev + [e] + [f], watch, idle')
    ensures !stop.Running? ==> Stopped(stop, ev + [e] + [f], cap, dev.imgBytes)
  {
    hide EndOfRoll, RollGoesOn, NonEmpty, Idle, Answered, StatusOf;
    var ok, status := dev.Command(POLL_HOST);
    f := Framed(POLL_HOST, ok, status);
    Grow(ev, e);
    Grow(ev + [e], f);
    stop, idle', busy := Running, idle, ok && status == BUSY;
    if busy { return; }
    idle' := idle + 1;
    if !watch.filmSeen {
      if idle' >= LOAD_WAIT { stop := NoFilmFed; }
    } else if idle' >= MAX_EMPTY {
      stop := StreamEnded;
    }
  }

  /** One turn of the loop. */
  method Turn(dev: Device, buf: array<byte>, watch: RollWatch, idle: nat, cap: nat, ghost ev: seq<Event>)
    returns (stop: Stop, idle': nat, busy: bool, ghost more: seq<Event>)
    requires buf.Length == WINDOW && AtHead(ev, watch, idle)
    modifies dev, buf, watch
    ensures dev.trace == old(dev.trace) + more && OnlyPolls(ev + more) && IsWindow(more)
    ensures dev.image == old(dev.image) + ImageBytes(more) && dev.imgBytes == old(dev.imgBytes) + |ImageBytes(more)|
    ensures |ImageBytes(more)| <= WINDOW
    ensures watch.filmSeen <==> FilmSeen(NonEmpty(ev + more))
    ensures stop.Running? ==> AtHead(ev + more, watch, idle')
    ensures !stop.Running? ==> Stopped(stop, ev + more, cap, dev.imgBytes)
    ensures stop.Running? && busy ==>
              idle' == idle && dev.imgBytes == old(dev.imgBytes) &&
              dev.clock == old(dev.clock) + 2 && BusyWindow(dev.reply, old(dev.clock))
    ensures stop.Running? && !busy ==>
              (idle' == idle + 1 && dev.imgBytes == old(dev.imgBytes)) ||
              (idle' == 0 && dev.imgBytes > old(dev.imgBytes) && (cap > 0 ==> dev.imgBytes < cap))
  {
    hide EndOfRoll, RollGoesOn, NonEmpty, Idle, Answered, StatusOf, FilmSeen, OnlyPolls, Stopped, ImageBytes;
    var result, got := dev.Receive(buf, 0, WINDOW);
    assert buf[0..0 + got] == buf[..got];
    ghost var e := Read(WINDOW, result, buf[..got]);
    idle', busy := 0, false;
    more := [e];
    BytesOf(e, Framed([], false, 0));
    if got > 0 {
      stop := TakeChunk(dev, buf, got, watch, idle, cap, ev, e);
      return;
    }
    ghost var f;
    stop, idle', busy, f := PollHost(dev, watch, idle, cap, ev, e);
    more := [e, f];
    BytesOf(e, f);
    assert ev + more == ev + [e] + [f];
    assert dev.image == old(dev.image) + [];
  }

  /** The cap in bytes; the product is taken in 64 bits. */
  function CapBytes(maxMb: nat): nat {
    maxMb * 0x10_0000 % ULONGLONG
  }

  /** It is the number of megabytes asked for exactly below 2^44 of them, and no cap at all at the multiples of that. */
  lemma CapExactIff(maxMb: nat)
    ensures CapBytes(maxMb) == maxMb * 1048576 <==> maxMb < 17592186044416
    ensures CapBytes(maxMb) == 0 <==> maxMb % 17592186044416 == 0
  {
    var q, r := maxMb / 17592186044416, maxMb % 17592186044416;
    assert maxMb * 1048576 == q * 0x1_0000_0000_0000_0000 + r * 1048576;
    DivModUnique(maxMb * 1048576, ULONGLONG, q, r * 1048576);
  }

  /** A window is a read of 20480 bytes and, if nothing came, a poll of the host; the limits are 24 and 2 idle windows. */
  lemma WindowsAndLimits(w: seq<Event>, stop: Stop, ev: seq<Event>, cap: nat, bytes: nat)
    ensures IsWindow(w) ==>
              1 <= |w| <= 2 && w[0].Read? && w[0].want == 20480 && (|w| == 2 <==> w[0].bytes == []) &&
              (|w| == 2 ==> w[1].Framed? && w[1].frame == [0x03, 0x01, 0x10])
    ensures Stopped(NoFilmFed, ev, cap, bytes) <==>
              |set k: nat | k < |ev| && IdlePoll(ev, k)| == 24 && !FilmSeen(NonEmpty(ev))
    ensures Stopped(StreamEnded, ev, cap, bytes) <==>
              |set k: nat | k < |ev| && IdlePoll(ev, k)| == 2 && FilmSeen(NonEmpty(ev)) && RollGoesOn(NonEmpty(ev))
  {
    hide Idle, NonEmpty, FilmSeen, RollGoesOn;
    IdleCounts(ev);
  }

  method ScanLoop(dev: Device, maxMb: nat, budget: nat, ghost b: nat)
    returns (stop: Stop, filmSeen: bool, turns: nat, ghost ev: seq<Event>)
    modifies dev
    ensures dev.trace == old(dev.trace) + ev && OnlyPolls(ev)
    ensures dev.image == old(dev.image) + ImageBytes(ev) && dev.imgBytes == old(dev.imgBytes) + |ImageBytes(ev)|
    ensures filmSeen <==> FilmSeen(NonEmpty(ev))
    ensures Windows(ev, CapBytes(maxMb), old(dev.imgBytes), turns) && turns <= budget
    ensures stop.Running? ==> turns == budget && GoesOn(ev, CapBytes(maxMb), old(dev.imgBytes))
    ensures !stop.Running? ==> Stopped(stop, ev, CapBytes(maxMb), dev.imgBytes)
    ensures CapBytes(maxMb) > 0 ==> dev.imgBytes <= Max(old(dev.imgBytes), CapBytes(maxMb) - 1) + WINDOW
    ensures CapBytes(maxMb) > 0 && BusyBounded(dev.reply, b) && budget >= Enough(CapBytes(maxMb), old(dev.imgBytes), b)
            ==> !stop.Running?
  {
    hide EndOfRoll, RollGoesOn, NonEmpty, Idle, FilmSeen, OnlyPolls, Stopped, ImageBytes, CapBytes, Measure, BusyRun,
      BusyWindow, BusyBounded, Windows, IsWindow;
    var buf := new byte[WINDOW];
    var watch := new RollWatch();
    var cap := CapBytes(maxMb);
    var idle := 0;
    turns := 0;
    ghost var streak := 0;
    ghost var timed := cap > 0 && BusyBounded(dev.reply, b);
    ev, stop := [], Running;
    AtStart();
    NoStreak(dev.reply, dev.clock, b);
    while turns < budget && stop.Running?
      invariant fresh(buf) && fresh(watch) && buf.Length == WINDOW && turns <= budget
      invariant dev.trace == old(dev.trace) + ev && OnlyPolls(ev)
      invariant dev.image == old(dev.image) + ImageBytes(ev) && dev.imgBytes == old(dev.imgBytes) + |ImageBytes(ev)|
      invariant watch.filmSeen <==> FilmSeen(NonEmpty(ev))
      invariant stop.Running? ==> AtHead(ev, watch, idle)
      invariant !stop.Running? ==> Stopped(stop, ev, cap, dev.imgBytes)
      invariant Windows(ev, cap, old(dev.imgBytes), turns) && (stop.Running? ==> GoesOn(ev, cap, old(dev.imgBytes)))
      invariant stop.Running? && cap > 0 ==> dev.imgBytes <= Max(old(dev.imgBytes), cap - 1)
      invariant cap > 0 ==> dev.imgBytes <= Max(old(dev.imgBytes), cap - 1) + WINDOW
      invariant stop.Running? && timed ==> InTime(dev.reply, dev.clock, streak, b)
      invariant stop.Running? && timed ==>
                  turns + Measure(cap, dev.imgBytes, idle, streak, b) <= Measure(cap, old(dev.imgBytes), 0, 0, b)
      decreases budget - turns
    {
      ghost var idle0, bytes0, clock0 := idle, dev.imgBytes, dev.clock;
      ghost var more;
      var busy;
      stop, idle, busy, more := Turn(dev, buf, watch, idle, cap, ev);
      ImageBytesConcat(ev, more);
      WindowMore(ev, more, cap, old(dev.imgBytes), turns);
      ev := ev + more;
      turns := turns + 1;
      if timed && stop.Running? {
        if busy {
          BusyLonger(dev.reply, clock0, streak, b);
          MeasureBusy(cap, bytes0, idle0, streak, b);
          streak := streak + 1;
        } else {
          if dev.imgBytes > bytes0 {
            MeasureChunk(cap, bytes0, dev.imgBytes - bytes0, idle0, streak, b);
          } else {
            MeasureIdle(cap, bytes0, idle0, streak, b);
          }
          streak := 0;
          NoStreak(dev.reply, dev.clock, b);
        }
      }
    }
    filmSeen := watch.filmSeen;
    if stop.Running? && timed {
      MeasurePositive(cap, dev.imgBytes, idle, streak, b);
    }
  }

  /** The last `streak` windows were busy, which is not too many. */
  ghost predicate InTime(reply: nat -> Reply, clock: nat, streak: nat, b: nat) {
    streak <= b && 2 * streak <= clock && BusyRun(reply, clock - 2 * streak, streak)
  }

  lemma BusyLonger(reply: nat -> Reply, clock: nat, streak: nat, b: nat)
    requires InTime(reply, clock, streak, b) && BusyWindow(reply, clock) && BusyBounded(reply, b)
    ensures InTime(reply, clock + 2, streak + 1, b)
  {
    assert BusyRun(reply, clock - 2 * streak, streak + 1);
  }

  lemma NoStreak(reply: nat -> Reply, clock: nat, b: nat)
    ensures InTime(reply, clock, 0, b)
  {
  }

  lemma MeasureBusy(cap: nat, bytes: nat, idle: nat, streak: nat, b: nat)
    ensures Measure(cap, bytes, idle, streak + 1, b) < Measure(cap, bytes, idle, streak, b)
  {
  }

  lemma AtStart()
    ensures OnlyPolls([]) && NonEmpty([]) == [] && Idle([]) == 0 && ImageBytes([]) == [] && RollGoesOn([])
    ensures !FilmSeen([]) && forall cap, bytes :: Windows([], cap, bytes, 0)
  {
    NoChunks();
  }
}
