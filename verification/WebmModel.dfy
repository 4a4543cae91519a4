/** The EBML walk over a WebM file as a function, and the shape of every file it admits. */
module WebmModel {
  import opened Bytes
  import opened Outcome
  import opened Ebml
  import opened WebmTiming

  const MAX_LEAF := 256 * 1024
  const MAX_DEPTH := 12
  const VOID: nat := 0xEC
  const CRC: nat := 0xBF
  const DOC_TYPE: seq<byte> := [0x77, 0x65, 0x62, 0x6D]                            // "webm"
  const CODEC_OPUS: seq<byte> := [0x41, 0x5F, 0x4F, 0x50, 0x55, 0x53]              // "A_OPUS"
  const CODEC_VORBIS: seq<byte> := [0x41, 0x5F, 0x56, 0x4F, 0x52, 0x42, 0x49, 0x53] // "A_VORBIS"

  predicate Master(id: nat) {
    id == HEADER || id == SEGMENT || id == CLUSTER || id == TRACKS || id == TRACK || id == 0xE1 || id == BLOCK_GROUP
    || id == INFO || id == 0x114D_9B74 || id == 0x4DBB || id == 0x1C53_BB6B || id == 0xBB || id == 0xB7
    || id == 0x1254_C367 || id == 0x7373 || id == 0x63C0 || id == 0x67C8 || id == 0x1043_A770 || id == 0x45B9
    || id == 0xB6 || id == 0x80 || id == 0x1941_A469 || id == 0x61A7 || id == 0x4281 || id == 0x6944 || id == 0x6911
    || id == 0x8F || id == 0x4520 || id == 0x75A1 || id == 0xA6 || id == 0xC8 || id == 0x8E || id == 0xE8
    || id == 0x5854 || id == 0xDB || id == 0x6924 || id == 0x41E4 || id == 0x6624
  }

  predicate IsBlock(id: nat) {
    id == SIMPLE_BLOCK || id == BLOCK
  }

  /** What other components decide: the CRC-32 of some bytes, and whether codec headers are acceptable. */
  datatype Oracles = Oracles(crc32: seq<byte> -> nat, codecPrivate: (bool, seq<byte>) -> bool, arithmetic: Arithmetic)

  datatype Element = Element(id: nat, head: seq<byte>, unknown: bool, payload: seq<byte>, children: seq<Element>)

  /** What one walk remembers about the children seen so far. */
  datatype Flags = Flags(audioType: bool, codec: bool, private: bool, timestamp: bool)

  const NoFlags := Flags(false, false, false, false)

  datatype PolicyState = PolicyState(
    opus: bool, headers: nat, webm: bool, segments: nat, tracks: nat, blocks: nat, timing: Extrema)

  function NewPolicy(opus: bool): PolicyState {
    PolicyState(opus, 0, false, 0, 0, 0, Fresh)
  }

  // ---------- One element ----------

  /** The element at the start of nonempty bytes, without its children. */
  function ReadElement(bytes: seq<byte>): (r: Result<Element, Error>)
    requires bytes != []
    ensures r.Ok? ==> |r.value.head| >= 2 && r.value.children == [] && r.value.head + r.value.payload <= bytes
  {
    match Vint(bytes, true)
    case Err(e) => Err(e)
    case Ok((id, idBytes)) =>
      match Vint(bytes[idBytes..], false)
      case Err(e) => Err(e)
      case Ok((size, sizeBytes)) =>
        var headBytes := idBytes + sizeBytes;
        var unknown := size == UnknownSize(sizeBytes);
        if unknown && id != SEGMENT && id != CLUSTER then Err(UnknownSizeForbidden)
        else
          match Extent(id, unknown, size, bytes[headBytes..])
          case Err(e) => Err(e)
          case Ok(length) =>
            if headBytes + length > |bytes| then Err(Truncated)
            else
              var payload := bytes[headBytes..headBytes + length];
              if !Master(id) && id != VOID && |payload| > MAX_LEAF then Err(LeafTooLarge)
              else
                assert bytes[..headBytes] + payload == bytes[..headBytes + length];
                Ok(Element(id, bytes[..headBytes], unknown, payload, []))
  }

  /** How many payload bytes an element claims. */
  function Extent(id: nat, unknown: bool, size: nat, behindHead: seq<byte>): Result<nat, Error> {
    if unknown && id == CLUSTER then ClusterLength(behindHead)
    else if unknown then Ok(|behindHead|)
    else Ok(size)
  }

  function RequireUint(payload: seq<byte>, expected: nat, id: nat): Result<(), Error> {
    match Uint(payload)
    case Err(e) => Err(e)
    case Ok(value) => if value != expected then Err(Unsupported(id)) else Ok(())
  }

  function Checked(r: Result<(), Error>, f: Flags, p: PolicyState): Result<(Flags, PolicyState), Error> {
    match r
    case Err(e) => Err(e)
    case Ok(_) => Ok((f, p))
  }

  function InRange(payload: seq<byte>, lo: nat, hi: nat, id: nat): Result<(), Error> {
    match Uint(payload)
    case Err(e) => Err(e)
    case Ok(value) => if lo <= value <= hi then Ok(()) else Err(Unsupported(id))
  }

  /** Whether an element may stand where it stands, and what the walk remembers of it. */
  function Admit(e: Element, parent: nat, first: bool, behind: seq<byte>, f: Flags, p: PolicyState, o: Oracles)
    : Result<(Flags, PolicyState), Error>
  {
    var id, payload := e.id, e.payload;
    if id == CRC then
      if parent == 0 || !first then Err(Misplaced(id))
      else if |payload| != 4 || o.crc32(behind) != FromLittleEndian(payload) then Err(Rejected(id))
      else Ok((f, p))
    else if id == HEADER then
      if parent != 0 || p.headers != 0 || p.segments != 0 || e.unknown then Err(Misplaced(id))
      else Ok((f, p.(headers := p.headers + 1)))
    else if id == SEGMENT then
      if parent != 0 || p.headers != 1 || p.segments != 0 then Err(Misplaced(id))
      else Ok((f, p.(segments := p.segments + 1)))
    else if id == CLUSTER && parent != SEGMENT then Err(Misplaced(id))
    else if id == TIMESTAMP && parent == CLUSTER then
      if f.timestamp then Err(Repeated(id))
      else
        match Uint(payload)
        case Err(e) => Err(e)
        case Ok(_) => Ok((f.(timestamp := true), p))
    else if id == BLOCK_GROUP && (parent != CLUSTER || !f.timestamp) then Err(Misplaced(id))
    else if id == 0x4282 && parent == HEADER then
      if p.webm || payload != DOC_TYPE then Err(Rejected(id)) else Ok((f, p.(webm := true)))
    else if id == 0x42F7 && parent == HEADER then Checked(RequireUint(payload, 1, id), f, p)
    else if id == 0x42F2 && parent == HEADER then Checked(RequireUint(payload, 4, id), f, p)
    else if id == 0x42F3 && parent == HEADER then Checked(InRange(payload, 1, 8, id), f, p)
    else if id == 0x4285 && parent == HEADER then Checked(InRange(payload, 1, 2, id), f, p)
    else if id == TRACK then
      if parent != TRACKS || p.tracks != 0 then Err(Misplaced(id)) else Ok((f, p.(tracks := p.tracks + 1)))
    else if id == 0x83 && parent == TRACK then
      if f.audioType then Err(Repeated(id)) else Checked(RequireUint(payload, 2, id), f.(audioType := true), p)
    else if id == 0x86 && parent == TRACK then
      if f.codec || payload != (if p.opus then CODEC_OPUS else CODEC_VORBIS) then Err(Rejected(id))
      else Ok((f.(codec := true), p))
    else if id == 0x63A2 && parent == TRACK then
      if f.private then Err(Repeated(id))
      else if !o.codecPrivate(p.opus, payload) then Err(Rejected(id))
      else Ok((f.(private := true), p))
    else if id == 0xE0 || id == 0x6D80 || id == 0xE2 then Err(Unsupported(id))
    else if IsBlock(id) then
      if (id == SIMPLE_BLOCK && (parent != CLUSTER || !f.timestamp)) || (id == BLOCK && parent != BLOCK_GROUP) then
        Err(Misplaced(id))
      else if payload == [] then Err(Truncated)
      else
        match ReadBlockHead(payload)
        case Err(e) => Err(e)
        case Ok(head) => Ok((f, p.(timing := WithBlock(p.timing, head), blocks := p.blocks + 1)))
    else if parent == 0 && id != VOID then Err(Unsupported(id))
    else Ok((f, p))
  }

  /** Metadata that concerns timing is recorded before anything else is decided. */
  function Take(e: Element, parent: nat, first: bool, behind: seq<byte>, f: Flags, p: PolicyState, o: Oracles)
    : Result<(Flags, PolicyState), Error>
  {
    match Metadata(p.timing, e.id, parent, e.payload, o.arithmetic)
    case Err(error) => Err(error)
    case Ok(timing) => Admit(e, parent, first, behind, f, p.(timing := timing), o)
  }

  predicate Finished(parent: nat, f: Flags) {
    && (parent == TRACK ==> f.audioType && f.codec && f.private)
    && (parent == CLUSTER ==> f.timestamp)
  }

  // ---------- The walk ----------

  /** Walks the whole payload of `parent`. */
  function Walk(bytes: seq<byte>, parent: nat, depth: nat, p: PolicyState,
      o: Oracles): Result<(seq<Element>, PolicyState), Error>
    decreases |bytes|, 1
  {
    if depth > MAX_DEPTH then Err(TooDeep) else WalkRest(bytes, parent, depth, true, NoFlags, p, o)
  }

  /** Walks what is left of a payload, given what was seen of it. */
  function WalkRest(bytes: seq<byte>, parent: nat, depth: nat, first: bool, f: Flags, p: PolicyState, o: Oracles)
    : Result<(seq<Element>, PolicyState), Error>
    decreases |bytes|, 0
  {
    if bytes == [] then
      if Finished(parent, f) then Ok(([], p)) else Err(Incomplete)
    else
      match ReadElement(bytes)
      case Err(error) => Err(error)
      case Ok(e) =>
        var end := |e.head| + |e.payload|;
        match Take(e, parent, first, bytes[end..], f, p, o)
        case Err(error) => Err(error)
        case Ok((f', p')) =>
          match Descend(e, depth, p', o)
          case Err(error) => Err(error)
          case Ok((children, p'')) =>
            match WalkRest(bytes[end..], parent, depth, false, f', p'', o)
            case Err(error) => Err(error)
            case Ok((siblings, last)) => Ok(([e.(children := children)] + siblings, last))
  }

  /** The children of a master element. */
  function Descend(e: Element, depth: nat, p: PolicyState, o: Oracles): Result<(seq<Element>, PolicyState), Error>
    decreases |e.payload|, 2
  {
    if Master(e.id) then Walk(e.payload, e.id, depth + 1, p, o) else Ok(([], p))
  }

  /** The verdict on a whole file. */
  function Profile(bytes: seq<byte>, opus: bool, o: Oracles): Result<(seq<Element>, PolicyState), Error> {
    if |bytes| < 4 || bytes[..4] != BigEndian(HEADER, 4) then Err(Rejected(HEADER))
    else
      match Walk(bytes, 0, 0, NewPolicy(opus), o)
      case Err(error) => Err(error)
      case Ok((tree, p)) =>
        if p.headers != 1 || !p.webm || p.segments != 1 || p.tracks != 1 || p.blocks == 0 then Err(Incomplete)
        else
          match Validate(p.timing, o.arithmetic)
          case Err(error) => Err(error)
          case Ok(_) => Ok((tree, p))
  }
}
