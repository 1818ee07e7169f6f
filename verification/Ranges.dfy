/** Serving a byte range of a track: the default that skips through the stream, the file system's
    seek, and the reader that puts a prefix in front of a stream. */
module Ranges {
  import opened Wrappers
  import opened Arithmetic

  const SKIP_BUFFER: nat := 65536

  /** A source of bytes that reads as few at a time as it likes. `supply` says for each read how many
      bytes are ready, at least one counting as ready; None is a failure. */
  class Stream {
    const data: seq<byte>
    const supply: nat -> Option<nat>
    var pos: nat
    var calls: nat

    ghost predicate Valid()
      reads this
    {
      pos <= |data|
    }

    constructor (data: seq<byte>, supply: nat -> Option<nat>)
      ensures Valid() && this.data == data && this.supply == supply && pos == 0
    {
      this.data, this.supply, pos, calls := data, supply, 0, 0;
    }

    /** Some bytes, at least one if there is any left and any room; None when the read fails. */
    method Read(room: nat) returns (r: Option<seq<byte>>)
      requires Valid()
      modifies this
      ensures Valid() && calls == old(calls) + 1
      ensures r == None <==> supply(old(calls)) == None
      ensures r == None ==> pos == old(pos)
      ensures r.Some? ==> |r.value| <= room && pos == old(pos) + |r.value| <= |data| && r.value == data[old(pos)..pos]
      ensures r.Some? && room > 0 && old(pos) < |data| ==> r.value != []
    {
      var ready := supply(calls);
      calls := calls + 1;
      if ready == None {
        return None;
      }
      var n := Min(Min(room, |data| - pos), if ready.value == 0 then 1 else ready.value);
      r := Some(data[pos..pos + n]);
      pos := pos + n;
    }
  }

  /** A stream that never fails. */
  ghost predicate Reliable(supply: nat -> Option<nat>) {
    forall n :: supply(n).Some?
  }

  /** What is announced about a body, and how many bytes of it will be read; None is to the end. */
  datatype Handle = Handle(total: Option<nat>, range: Option<(nat, nat)>, limit: Option<nat>)

  // ---- The default: skip, then take ----

  function EffectiveEnd(total: Option<nat>, end: Option<nat>): Option<nat> {
    if end.Some? then end
    else if total.Some? then Some(if total.value == 0 then 0 else total.value - 1)
    else None
  }

  function SlowHandle(total: Option<nat>, start: nat, end: Option<nat>): Handle {
    match EffectiveEnd(total, end)
    case None => Handle(total, None, None)
    case Some(e) => Handle(total, Some((start, e)), if e >= start then Some(e - start + 1) else None)
  }

  /** The default `open_stream_range`, on a stream just opened. */
  method OpenBySkipping(body: Stream, total: Option<nat>, start: nat, end: Option<nat>) returns (r: Result<Handle, ()>)
    requires body.Valid() && body.pos == 0
    modifies body
    ensures body.Valid()
    ensures r.Ok? ==> r.value == SlowHandle(total, start, end) && body.pos == Min(start, |body.data|)
    ensures Reliable(body.supply) ==> r.Ok?
  {
    if start > 0 {
      var skipped := 0;
      while skipped < start
        invariant body.Valid() && body.pos == skipped <= start
        decreases start - skipped
      {
        var want := Min(start - skipped, SKIP_BUFFER);
        var got := body.Read(want);
        if got == None {
          return Err(());
        }
        if got.value == [] {
          break;
        }
        skipped := skipped + |got.value|;
      }
    }
    r := Ok(SlowHandle(total, start, end));
  }

  /** The bytes a body yields from a position on, up to a limit. */
  function Taken(data: seq<byte>, pos: nat, limit: Option<nat>): seq<byte>
    requires pos <= |data|
  {
    if limit.Some? then data[pos..Min(pos + limit.value, |data|)] else data[pos..]
  }

  /** Reading a limited body to its end, in reads of any size. */
  method ReadToEnd(body: Stream, limit: Option<nat>, room: nat -> nat) returns (out: Option<seq<byte>>)
    requires body.Valid() && forall n :: room(n) > 0
    modifies body
    ensures body.Valid()
    ensures out.Some? ==> out.value == Taken(body.data, old(body.pos), limit)
    ensures Reliable(body.supply) ==> out.Some?
  {
    var bytes: seq<byte> := [];
    var turn := 0;
    ghost var first := body.pos;
    while limit == None || |bytes| < limit.value
      invariant body.Valid() && first <= body.pos && bytes == body.data[first..body.pos] && turn >= 0
      invariant limit.Some? ==> |bytes| <= limit.value
      decreases |body.data| - body.pos
    {
      var want := if limit.Some? then Min(room(turn), limit.value - |bytes|) else room(turn);
      var got := body.Read(want);
      if got == None {
        return None;
      }
      if got.value == [] {
        break;
      }
      bytes := bytes + got.value;
      turn := turn + 1;
    }
    out := Some(bytes);
  }

  // ---- The file system: seek, then take ----

  /** A start beyond the file is refused; an end before the start makes the length underflow. */
  datatype Seek = Opened(handle: Handle) | Refused | Underflow

  function OpenBySeeking(size: nat, start: nat, end: Option<nat>): Seek {
    if start >= size then Refused
    else
      var last := if end.Some? then Min(end.value, size - 1) else size - 1;
      if last < start then Underflow
      else Opened(Handle(Some(size), Some((start, last)), Some(last - start + 1)))
  }

  /** The bytes of a range, both ends inclusive, as far as the data goes. */
  function RangeBytes(data: seq<byte>, start: nat, end: Option<nat>): seq<byte>
    requires start < |data| && (end.Some? ==> start <= end.value)
  {
    data[start..(if end.Some? then Min(end.value, |data| - 1) else |data| - 1) + 1]
  }

  /** Within the file and with its ends in order, the two ways deliver the same bytes, and announce
      the same range exactly when the end is absent or inside the file. */
  lemma {:induction false} SkippingIsSeeking(data: seq<byte>, start: nat, end: Option<nat>)
    requires start < |data| && (end.Some? ==> start <= end.value)
    ensures var slow, fast := SlowHandle(Some(|data|), start, end), OpenBySeeking(|data|, start, end);
      && fast.Opened?
      && Taken(data, start, slow.limit) == Taken(data, start, fast.handle.limit) == RangeBytes(data, start, end)
      && slow.total == fast.handle.total
      && (slow.range == fast.handle.range <==> end == None || end.value < |data|)
  {
  }

  const U64_MAX: nat := 0xFFFF_FFFF_FFFF_FFFF

  /** The length a response announces: the width of its range, else the size if it is known. Out of
      range is where computing the width leaves u64. */
  datatype Length = Unannounced | Bytes(n: nat) | OutOfRange

  function Announced(h: Handle): Length {
    if h.range.Some? then
      var (start, end) := h.range.value;
      if start <= end && end - start < U64_MAX then Bytes(end - start + 1) else OutOfRange
    else if h.total.Some? then Bytes(h.total.value)
    else Unannounced
  }

  /** A source that tells its size tells the truth. */
  predicate Honest(total: Option<nat>, data: seq<byte>) {
    |data| <= U64_MAX && (total == None || total == Some(|data|))
  }

  /** A skipped range announces what it delivers exactly when it starts inside the data and does not
      end before that, nor beyond the data; one without an end needs the size to be known. It announces
      nothing when neither is given, and the width leaves u64 exactly when the range ends before it
      starts or is all of u64. */
  lemma {:induction false} AnnouncedIsDelivered(data: seq<byte>, total: Option<nat>, start: nat, end: Option<nat>)
    requires Honest(total, data) && (end.Some? ==> end.value <= U64_MAX)
    ensures var h := SlowHandle(total, start, end);
      var said, given := Announced(h), |Taken(data, Min(start, |data|), h.limit)|;
      && (said == Bytes(given) <==> if end.Some? then start <= end.value < |data| else total.Some? && start < |data|)
      && (said == Unannounced <==> end == None && total == None)
      && (said == OutOfRange <==>
            if end.Some? then end.value < start || (start == 0 && end.value == U64_MAX)
            else total.Some? && start > 0 && start >= |data|)
  {
  }

  /** A sought range announces what it delivers whenever it opens. */
  lemma {:induction false} SoughtIsDelivered(data: seq<byte>, start: nat, end: Option<nat>)
    requires |data| <= U64_MAX
    ensures var sought := OpenBySeeking(|data|, start, end);
      sought.Opened? ==> start < |data| && Announced(sought.handle) == Bytes(|Taken(data, start, sought.handle.limit)|)
  {
  }

  /** The seek goes wrong exactly when the range starts beyond the file or ends before it starts. */
  lemma {:induction false} SeekOpensIff(size: nat, start: nat, end: Option<nat>)
    ensures OpenBySeeking(size, start, end) == Underflow <==> start < size && end.Some? && end.value < start
    ensures OpenBySeeking(size, start, end) == Refused <==> start >= size
  {
  }

  /** What skipping delivers of any range: nothing when it starts beyond the data, everything from
      its start on when it ends before that. */
  function SkippedBytes(data: seq<byte>, start: nat, end: Option<nat>): seq<byte> {
    if start >= |data| then []
    else if end.Some? && end.value < start then data[start..]
    else RangeBytes(data, start, end)
  }

  /** Opening by skipping and reading to the end, however short the reads. */
  method ServeBySkipping(body: Stream, total: Option<nat>, start: nat, end: Option<nat>, room: nat -> nat)
    returns (r: Result<seq<byte>, ()>)
    requires body.Valid() && body.pos == 0 && (forall n :: room(n) > 0) && Honest(total, body.data)
    modifies body
    ensures r.Ok? ==> r.value == SkippedBytes(body.data, start, end)
    ensures Reliable(body.supply) ==> r.Ok?
  {
    var handle := OpenBySkipping(body, total, start, end);
    if handle.Err? {
      return Err(());
    }
    SkippingDelivers(body.data, total, start, end);
    var out := ReadToEnd(body, handle.value.limit, room);
    r := if out.Some? then Ok(out.value) else Err(());
  }

  lemma {:induction false} SkippingDelivers(data: seq<byte>, total: Option<nat>, start: nat, end: Option<nat>)
    requires Honest(total, data)
    ensures Taken(data, Min(start, |data|), SlowHandle(total, start, end).limit) == SkippedBytes(data, start, end)
  {
  }

  // ---- A prefix before a stream ----

  /** The prefix, then the inner stream. `delivered` records all bytes handed out. */
  class PrefixReader {
    const prefix: seq<byte>
    const inner: Stream
    var prefixOffset: nat
    ghost var delivered: seq<byte>

    ghost predicate Valid()
      reads this, inner
    {
      && prefixOffset <= |prefix| && inner.Valid()
      && delivered == prefix[..prefixOffset] + inner.data[..inner.pos]
      && (prefixOffset < |prefix| ==> inner.pos == 0)
    }

    constructor (prefix: seq<byte>, inner: Stream)
      requires inner.Valid() && inner.pos == 0
      ensures Valid() && this.prefix == prefix && this.inner == inner && delivered == []
    {
      this.prefix, this.inner, prefixOffset, delivered := prefix, inner, 0, [];
    }

    /** Each poll continues where the last one stopped in prefix + data, and comes back empty with
        room to spare only when both are used up. */
    method PollRead(room: nat) returns (r: Option<seq<byte>>)
      requires Valid()
      modifies this, inner
      ensures Valid()
      ensures delivered == old(delivered) + (if r.Some? then r.value else []) <= prefix + inner.data
      ensures r.Some? && room > 0 && r.value == [] ==> delivered == prefix + inner.data
      ensures r.Some? ==> |r.value| <= room
    {
      if prefixOffset < |prefix| {
        var n := Min(|prefix| - prefixOffset, room);
        r := Some(prefix[prefixOffset..prefixOffset + n]);
        prefixOffset := prefixOffset + n;
      } else {
        r := inner.Read(room);
      }
      delivered := delivered + if r.Some? then r.value else [];
    }
  }
}
