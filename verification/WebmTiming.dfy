/**
  * Admission of a WebM timeline from extrema alone: neither the cluster timestamps nor the blocks
  * are kept, only their least and greatest values.
  *
  * Scale factors are reals here, and rounding is exact; the upstream timebase is an oracle.
  */
module WebmTiming {
  import opened Bytes
  import opened Outcome
  import opened Ebml

  const TIMESTAMP_SCALE: nat := 0x2A_D7B1
  const TRACK_SCALE: nat := 0x23_314F
  const CODEC_DELAY: nat := 0x56AA
  const DEFAULT_DURATION: nat := 0x23_E383
  const BLOCK_DURATION: nat := 0x9B

  const I64_MIN := -0x8000_0000_0000_0000
  const I64_MAX := 0x7FFF_FFFF_FFFF_FFFF

  datatype Float = Finite(value: real) | NotFinite

  /** What the arithmetic library decides: how bytes denote floats, and the nanoseconds per track tick. */
  datatype Arithmetic = Arithmetic(
    ieee: seq<byte> -> Float,
    divisor: (U32, real) -> Option<nat>)    // None when the scaled timebase is unsupported

  datatype Extrema = Extrema(
    info: bool,
    timestampScale: Option<nat>,
    trackScale: Option<real>,
    codecDelay: Option<nat>,
    defaultDuration: Option<nat>,
    minCluster: Option<nat>,
    maxCluster: nat,
    minRelative: int,
    maxRelative: int,
    maxBlockDuration: nat,
    maxLaceFrames: nat)

  const Fresh := Extrema(false, None, None, None, None, None, 0, 0, 0, 0, 0)

  /** A block's timestamp relative to its cluster, and how many frames are laced into it. */
  datatype BlockHead = BlockHead(relative: int, frames: nat)

  /** Everything the extrema summarize. */
  datatype History = History(clusters: seq<nat>, blocks: seq<BlockHead>, durations: seq<nat>)

  function Min(a: int, b: int): int {
    if a <= b then a else b
  }

  function Max(a: int, b: int): int {
    if a >= b then a else b
  }

  function Signed16(n: U16): (r: int)
    ensures -0x8000 <= r < 0x8000
  {
    if n < 0x8000 then n else n - 0x1_0000
  }

  /** The fixed prefix of a block: track number, relative timestamp, flags and lace count. */
  function ReadBlockHead(bytes: seq<byte>): (r: Result<BlockHead, Error>)
    ensures r.Ok? ==> -0x8000 <= r.value.relative < 0x8000 && 1 <= r.value.frames <= 256
  {
    match Vint(bytes, false)
    case Err(e) => Err(e)
    case Ok((_, width)) =>
      if |bytes| < width + 3 then Err(Truncated)
      else
        var high: int, low: int := bytes[width], bytes[width + 1];
        var relative := Signed16(high * 256 + low);
        if bytes[width + 2] / 2 % 4 == 0 then Ok(BlockHead(relative, 1))
        else if |bytes| < width + 4 then Err(Truncated)
        else
          var laces: int := bytes[width + 3];
          Ok(BlockHead(relative, laces + 1))
  }

  function ReadFloat(bytes: seq<byte>, arithmetic: Arithmetic): Result<Float, Error> {
    if bytes == [] then Ok(Finite(1.0))
    else if |bytes| == 4 || |bytes| == 8 then Ok(arithmetic.ieee(bytes))
    else Err(InvalidTiming)
  }

  // ---------- What each call records ----------

  function WithCluster(s: Extrema, value: nat): Extrema {
    s.(minCluster := Some(if s.minCluster.Some? then Min(s.minCluster.value, value) else value),
       maxCluster := Max(s.maxCluster, value))
  }

  function WithBlock(s: Extrema, head: BlockHead): Extrema {
    s.(minRelative := Min(s.minRelative, head.relative),
       maxRelative := Max(s.maxRelative, head.relative),
       maxLaceFrames := Max(s.maxLaceFrames, head.frames))
  }

  function WithDuration(s: Extrema, value: nat): Extrema {
    s.(maxBlockDuration := Max(s.maxBlockDuration, value))
  }

  /** One metadata element; on an error the caller abandons the whole file. */
  function Metadata(s: Extrema, id: nat, parent: nat, bytes: seq<byte>,
      arithmetic: Arithmetic): Result<Extrema, Error>
  {
    if id == INFO then
      if parent != SEGMENT then Err(Misplaced(id))
      else if s.info then Err(Repeated(id))
      else Ok(s.(info := true))
    else if id == TIMESTAMP_SCALE && parent == INFO then
      match Uint(bytes)
      case Err(e) => Err(e)
      case Ok(value) => if value == 0 || s.timestampScale.Some? then Err(InvalidTiming)
        else Ok(s.(timestampScale := Some(value)))
    else if id == TRACK_SCALE && parent == TRACK then
      match ReadFloat(bytes, arithmetic)
      case Err(e) => Err(e)
      case Ok(NotFinite) => Err(InvalidTiming)
      case Ok(Finite(value)) =>
        if value <= 0.0 || s.trackScale.Some? then Err(InvalidTiming) else Ok(s.(trackScale := Some(value)))
    else if id == CODEC_DELAY && parent == TRACK then
      match Uint(bytes)
      case Err(e) => Err(e)
      case Ok(value) => if s.codecDelay.Some? then Err(Repeated(id)) else Ok(s.(codecDelay := Some(value)))
    else if id == DEFAULT_DURATION && parent == TRACK then
      match Uint(bytes)
      case Err(e) => Err(e)
      case Ok(value) => if value == 0 || s.defaultDuration.Some? then Err(InvalidTiming)
        else Ok(s.(defaultDuration := Some(value)))
    else if id == TIMESTAMP && parent == CLUSTER then
      match Uint(bytes)
      case Err(e) => Err(e)
      case Ok(value) => Ok(WithCluster(s, value))
    else if id == BLOCK_DURATION && parent == BLOCK_GROUP then
      match Uint(bytes)
      case Err(e) => Err(e)
      case Ok(value) => Ok(WithDuration(s, value))
    else Ok(s)
  }

  // ---------- The final verdict ----------

  /** The cluster timestamp in track ticks: rounded to nearest, refused beyond the signed range. */
  function ScaledTicks(value: nat, factor: real): (r: Result<int, Error>)
    ensures r.Ok? ==> r.value <= I64_MAX
  {
    if factor == 1.0 then
      if value <= I64_MAX then Ok(value) else Err(InvalidTiming)
    else
      var ticks := (value as real * factor + 0.5).Floor;
      if 0 <= ticks <= I64_MAX then Ok(ticks) else Err(InvalidTiming)
  }

  function Or(o: Option<nat>, default: nat): nat {
    if o.Some? then o.value else default
  }

  function Factor(s: Extrema): real {
    if s.trackScale.Some? then s.trackScale.value else 1.0
  }

  /** Nanoseconds per track tick, if the timebase is usable at all. */
  function Divisor(s: Extrema, arithmetic: Arithmetic): (r: Option<nat>)
    ensures r.Some? ==> r.value > 0
  {
    var scale := Or(s.timestampScale, 1_000_000);
    if scale == 0 || scale >= U32_BOUND then None
    else
      match arithmetic.divisor(scale, Factor(s))
      case None => None
      case Some(divisor) => if divisor == 0 then None else Some(divisor)
  }

  /** The codec delay in track ticks. */
  function Delay(s: Extrema, divisor: nat): nat
    requires divisor > 0
  {
    Or(s.codecDelay, 0) / divisor
  }

  /** What so many frames last at the default duration. */
  function Laced(s: Extrema, frames: nat): nat {
    Or(s.defaultDuration, 0) * frames
  }

  /** The longest any block may last. */
  function Longest(s: Extrema, divisor: nat): nat
    requires divisor > 0
  {
    Max(s.maxBlockDuration, Laced(s, s.maxLaceFrames) / divisor)
  }

  function Validate(s: Extrema, arithmetic: Arithmetic): Result<(), Error> {
    match Divisor(s, arithmetic)
    case None => Err(InvalidTiming)
    case Some(divisor) =>
      if Laced(s, s.maxLaceFrames) >= U64_BOUND then Err(InvalidTiming)
      else
        match ScaledTicks(Or(s.minCluster, 0), Factor(s))
        case Err(e) => Err(e)
        case Ok(first) =>
          match ScaledTicks(s.maxCluster, Factor(s))
          case Err(e) => Err(e)
          case Ok(last) =>
            var delay, duration := Delay(s, divisor), Longest(s, divisor);
            if last + s.maxRelative > I64_MAX then Err(InvalidTiming)
            else if duration + (if s.maxLaceFrames > 0 then s.maxLaceFrames - 1 else 0) >= U64_BOUND then
              Err(InvalidTiming)
            else if first + s.minRelative - delay < I64_MIN || last + s.maxRelative - delay + duration > I64_MAX then
              Err(InvalidTiming)
            else Ok(())
  }

  // ---------- The extrema summarize the history ----------

  ghost predicate Summarizes(s: Extrema, h: History) {
    && (s.minCluster.Some? <==> h.clusters != [])
    && (s.minCluster.Some? ==> s.minCluster.value in h.clusters)
    && (h.clusters == [] ==> s.maxCluster == 0) && (h.clusters != [] ==> s.maxCluster in h.clusters)
    && (forall c :: c in h.clusters ==> s.minCluster.value <= c <= s.maxCluster)
    && (s.minRelative == 0 || exists b :: b in h.blocks && b.relative == s.minRelative)
    && (s.maxRelative == 0 || exists b :: b in h.blocks && b.relative == s.maxRelative)
    && -0x8000 <= s.minRelative <= 0 <= s.maxRelative < 0x8000
    && (h.blocks == [] ==> s.maxLaceFrames == 0)
    && (h.blocks != [] ==> exists b :: b in h.blocks && b.frames == s.maxLaceFrames)
    && (forall b :: b in h.blocks ==> s.minRelative <= b.relative <= s.maxRelative && 0 < b.frames <= s.maxLaceFrames)
    && (s.maxBlockDuration == 0 || s.maxBlockDuration in h.durations)
    && (forall d :: d in h.durations ==> d <= s.maxBlockDuration)
    && (s.trackScale.Some? ==> s.trackScale.value > 0.0)
  }

  function NoHistory(): History {
    History([], [], [])
  }

  lemma SummarizesCluster(s: Extrema, h: History, value: nat)
    requires Summarizes(s, h)
    ensures Summarizes(WithCluster(s, value), h.(clusters := h.clusters + [value]))
  {
    var cs := h.clusters + [value];
    assert value in cs && forall c :: c in cs <==> c in h.clusters || c == value;
  }

  lemma SummarizesBlock(s: Extrema, h: History, head: BlockHead)
    requires Summarizes(s, h) && -0x8000 <= head.relative < 0x8000 && head.frames > 0
    ensures Summarizes(WithBlock(s, head), h.(blocks := h.blocks + [head]))
  {
    var bs := h.blocks + [head];
    assert head in bs && forall b :: b in bs <==> b in h.blocks || b == head;
  }

  lemma SummarizesDuration(s: Extrema, h: History, value: nat)
    requires Summarizes(s, h)
    ensures Summarizes(WithDuration(s, value), h.(durations := h.durations + [value]))
  {
    var ds := h.durations + [value];
    assert value in ds && forall d :: d in ds <==> d in h.durations || d == value;
  }

  // ---------- What is read, and in which unit ----------

  /**
    * Behind the track number a block has a signed big-endian time, then flags; unless both lacing bits are
    * clear, one more byte tells how many frames follow the first.
    */
  lemma BlockHeadExact(bytes: seq<byte>, head: BlockHead)
    ensures Vint(bytes, false).Err? ==> ReadBlockHead(bytes) == Err(Vint(bytes, false).error)
    ensures Vint(bytes, false).Ok? ==>
      var w := Vint(bytes, false).value.1;
      var laced := w + 2 < |bytes| && bytes[w + 2] % 8 >= 2;
      && (ReadBlockHead(bytes).Err? <==> |bytes| < w + 3 || (laced && |bytes| == w + 3))
      && (ReadBlockHead(bytes).Err? ==> ReadBlockHead(bytes) == Err(Truncated))
      && (ReadBlockHead(bytes) == Ok(head) ==>
           var high: int, low: int := bytes[w], bytes[w + 1];
           var more: int := if laced then bytes[w + 3] else 0;
           && head.relative == 0x100 * high + low - (if high >= 0x80 then 0x1_0000 else 0)
           && head.frames == 1 + more)
  {
    hide Vint;
  }

  /** Cluster times in track ticks are rounded to nearest, halves upwards, within the signed 64-bit range. */
  lemma TicksExact(value: nat, factor: real, ticks: int)
    ensures ScaledTicks(value, factor) == Ok(ticks) <==>
      0 <= ticks <= 0x7FFF_FFFF_FFFF_FFFF && ticks as real - 0.5 <= value as real * factor < ticks as real + 0.5
  {
    if factor == 1.0 {
      assert value as real * factor == value as real;
    }
  }

  /**
    * A time scale is a million unless one is given, a track scale one, a codec delay and a frame's default
    * duration nothing. The delay is cut down to whole ticks.
    */
  lemma UnitsExact(s: Extrema, arithmetic: Arithmetic, divisor: nat, frames: nat)
    ensures Divisor(s, arithmetic) == Some(divisor) <==>
      var scale := if s.timestampScale.Some? then s.timestampScale.value else 1_000_000;
      var factor := if s.trackScale.Some? then s.trackScale.value else 1.0;
      0 < scale < 0x1_0000_0000 && divisor > 0 && arithmetic.divisor(scale, factor) == Some(divisor)
    ensures divisor > 0 && s.codecDelay.Some? ==>
      Delay(s, divisor) * divisor <= s.codecDelay.value < Delay(s, divisor) * divisor + divisor
    ensures divisor > 0 && s.codecDelay.None? ==> Delay(s, divisor) == 0
    ensures Laced(s, frames) == if s.defaultDuration.Some? then s.defaultDuration.value * frames else 0
  {
    if divisor > 0 {
      Quotient(Or(s.codecDelay, 0), divisor);
    }
  }

  lemma Quotient(a: nat, d: nat)
    requires d > 0
    ensures a / d * d <= a < a / d * d + d
    ensures a == 0 ==> a / d == 0
  {
    assert a == a / d * d + a % d;
  }

  // ---------- What acceptance means for every single block ----------

  lemma ScaledMonotone(a: nat, b: nat, factor: real)
    requires a <= b && factor > 0.0 && ScaledTicks(b, factor).Ok?
    ensures ScaledTicks(a, factor).Ok? && 0 <= ScaledTicks(a, factor).value <= ScaledTicks(b, factor).value
  {
    assert a as real * factor <= b as real * factor;
  }

  predicate FitsI64(n: int) {
    I64_MIN <= n <= I64_MAX
  }

  /**
    * A block at this cluster time plays within the representable range: the sum before the codec
    * delay is taken off, the start after it, and the end after the given duration in ticks.
    */
  predicate Plays(ticks: int, relative: int, delay: nat, duration: nat) {
    FitsI64(ticks + relative) && FitsI64(ticks + relative - delay) && FitsI64(ticks + relative - delay + duration)
  }

  /** The ticks a block may last: a recorded duration, or its laced frames at the default duration. */
  ghost predicate Lasts(s: Extrema, h: History, divisor: nat, frames: nat, duration: nat)
    requires divisor > 0
  {
    duration in h.durations || duration == Laced(s, frames) / divisor
  }

  lemma DivMonotone(a: nat, b: nat, d: nat)
    requires a <= b && d > 0
    ensures a / d <= b / d
  {
    var q := b / d;
    assert b == q * d + b % d;
    assert a < (q + 1) * d;
    DivBelow(a, d, q + 1);
  }

  // ---------- What refusal means ----------

  /** The cluster times an envelope ranges over; a file without any is judged as if at time zero. */
  function Times(h: History): (r: seq<nat>)
    ensures r != []
  {
    if h.clusters == [] then [0] else h.clusters
  }

  /** Zero always counts as a relative timestamp, and as a duration. */
  ghost predicate Relative(h: History, relative: int) {
    relative == 0 || exists b :: b in h.blocks && b.relative == relative
  }

  ghost predicate Duration(s: Extrema, h: History, divisor: nat, duration: nat)
    requires divisor > 0
  {
    duration == 0 || duration in h.durations || exists b :: b in h.blocks && duration == Laced(s, b.frames) / divisor
  }

  ghost predicate LacesFit(s: Extrema, h: History, divisor: nat)
    requires divisor > 0
  {
    && (forall b :: b in h.blocks ==> Laced(s, b.frames) < U64_BOUND)
    && (forall b, d: nat :: b in h.blocks && Duration(s, h, divisor, d) ==> d + (b.frames - 1) < U64_BOUND)
  }

  ghost predicate AllPlay(s: Extrema, h: History, divisor: nat)
    requires divisor > 0
  {
    forall c, relative, d: nat :: c in Times(h) && Relative(h, relative) && Duration(s, h, divisor, d) ==>
      ScaledTicks(c, Factor(s)).Ok?
      && Plays(ScaledTicks(c, Factor(s)).value, relative, Delay(s, divisor), d)
  }

  /**
    * The exact meaning of acceptance: the timebase is usable, and any cluster time could be combined
    * with any relative timestamp and any duration of the file without leaving the range.
    */
  lemma EnvelopeExact(s: Extrema, h: History, arithmetic: Arithmetic)
    requires Summarizes(s, h)
    ensures Validate(s, arithmetic).Ok? <==>
      Divisor(s, arithmetic).Some? && LacesFit(s, h, Divisor(s, arithmetic).value)
        && AllPlay(s, h, Divisor(s, arithmetic).value)
  {
    if Divisor(s, arithmetic).Some? {
      var divisor := Divisor(s, arithmetic).value;
      if Validate(s, arithmetic).Ok? {
        EnvelopeCovers(s, h, arithmetic, divisor);
      }
      if LacesFit(s, h, divisor) && AllPlay(s, h, divisor) {
        EnvelopeAttained(s, h, arithmetic, divisor);
      }
    }
  }

  lemma LacedGrows(s: Extrema, a: nat, b: nat)
    requires a <= b
    ensures Laced(s, a) <= Laced(s, b)
  {
    MulGrows(Or(s.defaultDuration, 0), a, b);
  }

  /** No duration of the file is longer than the one the check uses. */
  lemma DurationBelow(s: Extrema, h: History, divisor: nat, d: nat)
    requires Summarizes(s, h) && divisor > 0 && Duration(s, h, divisor, d)
    ensures d <= Longest(s, divisor)
  {
    if d != 0 && d !in h.durations {
      var b :| b in h.blocks && d == Laced(s, b.frames) / divisor;
      LacedGrows(s, b.frames, s.maxLaceFrames);
      hide Laced;
      DivMonotone(Laced(s, b.frames), Laced(s, s.maxLaceFrames), divisor);
    }
  }

  lemma WithinExtrema(s: Extrema, h: History, c: nat, relative: int)
    requires Summarizes(s, h) && c in Times(h) && Relative(h, relative)
    ensures Or(s.minCluster, 0) <= c <= s.maxCluster && s.minRelative <= relative <= s.maxRelative
  {
  }

  /** What lies between the extrema plays if the extrema pass the check. */
  lemma BetweenPlays(s: Extrema, arithmetic: Arithmetic, divisor: nat, c: nat, relative: int, d: nat)
    requires divisor > 0 && Divisor(s, arithmetic) == Some(divisor) && Factor(s) > 0.0 && Validate(s, arithmetic).Ok?
    requires Or(s.minCluster, 0) <= c <= s.maxCluster && s.minRelative <= relative <= s.maxRelative
      && d <= Longest(s, divisor)
    ensures ScaledTicks(c, Factor(s)).Ok? && Plays(ScaledTicks(c, Factor(s)).value, relative, Delay(s, divisor), d)
  {
    hide ScaledTicks, Divisor, Factor, Or, Laced, Longest, Delay;
    ScaledMonotone(c, s.maxCluster, Factor(s));
    ScaledMonotone(Or(s.minCluster, 0), c, Factor(s));
  }

  lemma LacesBelow(s: Extrema, h: History, arithmetic: Arithmetic, divisor: nat)
    requires divisor > 0 && Summarizes(s, h) && Divisor(s, arithmetic) == Some(divisor) && Validate(s, arithmetic).Ok?
    ensures LacesFit(s, h, divisor)
  {
    hide Divisor, Factor, Or, ScaledTicks, Duration, Laced, Longest, Delay;
    forall b | b in h.blocks ensures Laced(s, b.frames) < U64_BOUND {
      LacedGrows(s, b.frames, s.maxLaceFrames);
    }
    forall b, d: nat | b in h.blocks && Duration(s, h, divisor, d) ensures d + (b.frames - 1) < U64_BOUND {
      DurationBelow(s, h, divisor, d);
    }
  }

  lemma FactorPositive(s: Extrema, h: History)
    requires Summarizes(s, h)
    ensures Factor(s) > 0.0
  {
  }

  lemma EnvelopeCovers(s: Extrema, h: History, arithmetic: Arithmetic, divisor: nat)
    requires divisor > 0 && Summarizes(s, h) && Divisor(s, arithmetic) == Some(divisor) && Validate(s, arithmetic).Ok?
    ensures LacesFit(s, h, divisor) && AllPlay(s, h, divisor)
  {
    FactorPositive(s, h);
    LacesBelow(s, h, arithmetic, divisor);
    hide Summarizes, Validate, Divisor, Factor, Or, ScaledTicks, Plays, Duration, Relative, Times, LacesFit, Longest,
      Delay;
    forall c, relative, d: nat | c in Times(h) && Relative(h, relative) && Duration(s, h, divisor, d)
      ensures ScaledTicks(c, Factor(s)).Ok?
      ensures Plays(ScaledTicks(c, Factor(s)).value, relative, Delay(s, divisor), d)
    {
      WithinExtrema(s, h, c, relative);
      DurationBelow(s, h, divisor, d);
      BetweenPlays(s, arithmetic, divisor, c, relative, d);
    }
  }

  lemma Attained(s: Extrema, h: History, divisor: nat)
    requires Summarizes(s, h) && divisor > 0
    ensures Or(s.minCluster, 0) in Times(h) && s.maxCluster in Times(h)
    ensures Relative(h, s.minRelative) && Relative(h, s.maxRelative)
    ensures Duration(s, h, divisor, 0) && Duration(s, h, divisor, Longest(s, divisor))
    ensures s.maxLaceFrames == 0 || exists b :: b in h.blocks && b.frames == s.maxLaceFrames
  {
    if h.blocks == [] {
      assert Laced(s, 0) == 0;
    }
  }

  lemma EnvelopeAttained(s: Extrema, h: History, arithmetic: Arithmetic, divisor: nat)
    requires Summarizes(s, h) && divisor > 0 && Divisor(s, arithmetic) == Some(divisor)
    requires LacesFit(s, h, divisor) && AllPlay(s, h, divisor)
    ensures Validate(s, arithmetic).Ok?
  {
    Attained(s, h, divisor);
    assert Laced(s, 0) == 0;
    hide Summarizes, Divisor, Factor, Laced, Longest, Delay, ScaledTicks, Duration, Relative, Times, Or;
    var delay, longest := Delay(s, divisor), Longest(s, divisor);
    assert longest + (if s.maxLaceFrames > 0 then s.maxLaceFrames - 1 else 0) < U64_BOUND
      && Laced(s, s.maxLaceFrames) < U64_BOUND by {
      if s.maxLaceFrames > 0 {
        var b :| b in h.blocks && b.frames == s.maxLaceFrames;
      } else {
        assert Plays(ScaledTicks(s.maxCluster, Factor(s)).value, s.maxRelative, delay, longest);
      }
    }
    assert Plays(ScaledTicks(Or(s.minCluster, 0), Factor(s)).value, s.minRelative, delay, 0);
    assert Plays(ScaledTicks(s.maxCluster, Factor(s)).value, s.maxRelative, delay, longest);
  }

  /** If the extrema are accepted, every recorded block plays within range at every recorded cluster. */
  lemma AcceptedTimeline(s: Extrema, h: History, arithmetic: Arithmetic, cluster: nat, block: BlockHead, duration: nat)
    requires Summarizes(s, h) && Validate(s, arithmetic).Ok?
    requires cluster in h.clusters && block in h.blocks
    requires Lasts(s, h, Divisor(s, arithmetic).value, block.frames, duration)
    ensures ScaledTicks(cluster, Factor(s)).Ok?
    ensures Laced(s, block.frames) < U64_BOUND && duration + (block.frames - 1) < U64_BOUND
    ensures Plays(ScaledTicks(cluster, Factor(s)).value, block.relative, Delay(s, Divisor(s, arithmetic).value),
      duration)
  {
    var divisor := Divisor(s, arithmetic).value;
    assert Relative(h, block.relative) && Duration(s, h, divisor, duration);
    hide Summarizes, Divisor, Validate, Factor, Laced, Longest, Delay, ScaledTicks, Plays, Duration, Relative;
    EnvelopeCovers(s, h, arithmetic, divisor);
  }

  /**
    * The envelope can refuse a file each of whose blocks plays on its own: one late cluster and one
    * long duration elsewhere suffice.
    */
  lemma EnvelopeCanBeTooStrict(arithmetic: Arithmetic)
    requires arithmetic.divisor(1_000_000, 1.0) == Some(1_000_000)
    ensures var late, long := I64_MAX - 10, 100;
      var s := WithDuration(WithBlock(WithCluster(WithCluster(Fresh, 0), late), BlockHead(0, 1)), long);
      && Summarizes(s, History([0, late], [BlockHead(0, 1)], [long]))
      && Validate(s, arithmetic).Err?
      && Plays(late, 0, 0, 0) && Plays(0, 0, 0, long)
  {
    var h0 := NoHistory();
    SummarizesCluster(Fresh, h0, 0);
    var s1, h1 := WithCluster(Fresh, 0), h0.(clusters := h0.clusters + [0]);
    SummarizesCluster(s1, h1, I64_MAX - 10);
    var s2, h2 := WithCluster(s1, I64_MAX - 10), h1.(clusters := h1.clusters + [I64_MAX - 10]);
    SummarizesBlock(s2, h2, BlockHead(0, 1));
    var s3, h3 := WithBlock(s2, BlockHead(0, 1)), h2.(blocks := h2.blocks + [BlockHead(0, 1)]);
    SummarizesDuration(s3, h3, 100);
    assert h3.(durations := h3.durations + [100]) == History([0, I64_MAX - 10], [BlockHead(0, 1)], [100]);
  }

  // ---------- The recorder ----------

  lemma SummarizesUnrelated(s: Extrema, s': Extrema, h: History)
    requires Summarizes(s, h)
    requires s' == s.(info := s'.info, timestampScale := s'.timestampScale, trackScale := s'.trackScale,
                      codecDelay := s'.codecDelay, defaultDuration := s'.defaultDuration)
    requires s'.trackScale.Some? ==> s'.trackScale.value > 0.0
    ensures Summarizes(s', h)
  {
  }

  /** Recording any metadata keeps the extrema those of what was recorded. */
  lemma Recorded(s: Extrema, h: History, id: nat, parent: nat, bytes: seq<byte>, arithmetic: Arithmetic)
    requires Summarizes(s, h) && Metadata(s, id, parent, bytes, arithmetic).Ok?
    ensures Summarizes(Metadata(s, id, parent, bytes, arithmetic).value, Noted(h, id, parent, bytes))
  {
    var next := Metadata(s, id, parent, bytes, arithmetic).value;
    if id == TIMESTAMP && parent == CLUSTER {
      SummarizesCluster(s, h, Uint(bytes).value);
    } else if id == BLOCK_DURATION && parent == BLOCK_GROUP {
      SummarizesDuration(s, h, Uint(bytes).value);
    } else {
      ScalePositive(s, h);
      hide Summarizes, Uint, ReadFloat;
      SummarizesUnrelated(s, next, h);
    }
  }

  lemma ScalePositive(s: Extrema, h: History)
    requires Summarizes(s, h)
    ensures s.trackScale.Some? ==> s.trackScale.value > 0.0
  {
  }

  class Timing {
    const arithmetic: Arithmetic
    var extrema: Extrema
    ghost var history: History

    ghost predicate Valid()
      reads this
    {
      Summarizes(extrema, history)
    }

    constructor (arithmetic: Arithmetic)
      ensures Valid() && extrema == Fresh && history == NoHistory() && this.arithmetic == arithmetic
    {
      this.arithmetic := arithmetic;
      extrema := Fresh;
      history := NoHistory();
    }

    method Record(id: nat, parent: nat, bytes: seq<byte>) returns (r: Result<(), Error>)
      requires Valid()
      modifies this
      ensures Valid()
      ensures match Metadata(old(extrema), id, parent, bytes, arithmetic)
        case Ok(next) => r == Ok(()) && extrema == next && history == Noted(old(history), id, parent, bytes)
        case Err(e) => r == Err(e) && extrema == old(extrema) && history == old(history)
    {
      hide Metadata, Noted, Summarizes;
      var next := Metadata(extrema, id, parent, bytes, arithmetic);
      if next.Err? {
        return Err(next.error);
      }
      Recorded(extrema, history, id, parent, bytes, arithmetic);
      history := Noted(history, id, parent, bytes);
      extrema := next.value;
      return Ok(());
    }

    method RecordBlock(bytes: seq<byte>) returns (r: Result<(), Error>)
      requires Valid()
      modifies this
      ensures Valid()
      ensures match ReadBlockHead(bytes)
        case Ok(head) =>
          r == Ok(()) && extrema == WithBlock(old(extrema), head)
            && history == old(history).(blocks := old(history).blocks + [head])
        case Err(e) => r == Err(e) && extrema == old(extrema) && history == old(history)
    {
      var head := ReadBlockHead(bytes);
      if head.Err? {
        return Err(head.error);
      }
      SummarizesBlock(extrema, history, head.value);
      extrema := WithBlock(extrema, head.value);
      history := history.(blocks := history.blocks + [head.value]);
      return Ok(());
    }
  }

  /** The history after one metadata element that was accepted. */
  function Noted(h: History, id: nat, parent: nat, bytes: seq<byte>): History {
    if id == TIMESTAMP && parent == CLUSTER && Uint(bytes).Ok? then h.(clusters := h.clusters + [Uint(bytes).value])
    else if id == BLOCK_DURATION && parent == BLOCK_GROUP && Uint(bytes).Ok? then
      h.(durations := h.durations + [Uint(bytes).value])
    else h
  }
}
