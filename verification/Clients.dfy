/** A client of the parser object that awaits every answer and reads every part whole. */
module Clients {
  import opened Bytes
  import opened Errors
  import opened Stream
  import opened Delimiter
  import opened Headers
  import opened Grammar
  import opened Lines
  import opened Machine
  import opened Refinement
  import opened Walks
  import opened Padding
  import opened Suspensions
  import opened Multiparts

  /** `Multipart::next_part`, driven to completion. */
  method AwaitNextPart(mp: Multipart) returns (r: Result<bool>)
    requires mp.Valid() && mp.buffer != null && Inv(mp.View())
    modifies mp, mp.buffer
    ensures mp.buffer == old(mp.buffer) && mp.buffer != null && mp.Valid()
    ensures (r, mp.View()) == AwaitPart(old(mp.View()))
  {
    hide Parser.NextPart, Source.Ending, Source.Bytes, Source.Smooth, Ahead, Advances;
    ghost var all := AwaitPart(mp.View());
    while true
      invariant mp.buffer == old(mp.buffer) && mp.buffer != null && mp.Valid()
      invariant Inv(mp.View()) && AwaitPart(mp.View()) == all
      decreases |mp.buffer.events|
    {
      NextPartWalks(mp.View());
      var p := mp.PollNextPart();
      if p.Ready? {
        return p.result;
      }
    }
  }

  method AwaitHeaderBlock(mp: Multipart) returns (r: Result<()>)
    requires mp.Valid() && mp.buffer != null && Inv(mp.View())
    requires mp.state == ReadingPartHeaders && mp.partHandedOut
    modifies mp, mp.buffer
    ensures mp.buffer == old(mp.buffer) && mp.buffer != null && mp.Valid()
    ensures (r, mp.View()) == AwaitHeaders(old(mp.View()))
  {
    hide Parser.EnsureHeaders, Source.Ending, Source.Bytes, Source.Smooth, Ahead, BlockAt;
    ghost var all := AwaitHeaders(mp.View());
    while true
      invariant mp.buffer == old(mp.buffer) && mp.buffer != null && mp.Valid()
      invariant Inv(mp.View()) && mp.state == ReadingPartHeaders && mp.partHandedOut
      invariant AwaitHeaders(mp.View()) == all
      decreases |mp.buffer.events|
    {
      EnsureHeadersStepped(mp.View());
      var p := mp.PollEnsureHeaders();
      if p.Ready? {
        return p.result;
      }
    }
  }

  /** The answer with `front` before what `rest` has. */
  function Before<T>(front: seq<T>, rest: Result<seq<T>>): Result<seq<T>> {
    if rest.Ok? then Ok(front + rest.value) else rest
  }

  lemma BeforeOne<T>(front: seq<T>, one: seq<T>, rest: Result<seq<T>>)
    ensures Before(front, Before(one, rest)) == Before(front + one, rest)
  {
    if rest.Ok? { assert front + (one + rest.value) == (front + one) + rest.value; }
  }

  lemma BeforeNone<T>(rest: Result<seq<T>>)
    ensures Before([], rest) == rest
  {
    if rest.Ok? { assert [] + rest.value == rest.value; }
  }

  method CollectFields(mp: Multipart) returns (r: Result<seq<Field>>)
    requires mp.Valid() && mp.buffer != null && mp.headers.Some?
    modifies mp, mp.buffer
    ensures mp.buffer == old(mp.buffer) && mp.buffer != null && mp.Valid()
    ensures (r, mp.View()) == ReadFields(old(mp.View()))
  {
    hide Parser.FinishHeaders;
    ghost var all := ReadFields(mp.View());
    var fields: seq<Field> := [];
    BeforeNone(all.0);
    while true
      invariant mp.buffer == old(mp.buffer) && mp.buffer != null && mp.Valid() && mp.headers.Some?
      invariant var (f, p) := ReadFields(mp.View()); all == (Before(fields, f), p)
      decreases |mp.headers.value.spans| - mp.headers.value.next
    {
      ghost var v := mp.View();
      var field := mp.NextHeaderInner();
      match field {
        case Err(e) => return Err(e);
        case Ok(None) =>
          assert fields + [] == fields;
          return Ok(fields);
        case Ok(Some(f)) =>
          BeforeOne(fields, [f], ReadFields(mp.View()).0);
          fields := fields + [f];
      }
    }
  }

  method CollectData(mp: Multipart) returns (r: Result<seq<Byte>>)
    requires mp.Valid() && mp.buffer != null && Inv(mp.View()) && mp.state in {ReadingPartData, ReadingBoundary}
    modifies mp, mp.buffer
    ensures mp.buffer == old(mp.buffer) && mp.buffer != null && mp.Valid()
    ensures (r, mp.View()) == ReadData(old(mp.View()))
  {
    hide Parser.NextDataChunk, Source.Ending, Source.Bytes, Source.Smooth, Ahead, Advances, BlockAt;
    ghost var all := ReadData(mp.View());
    var data: seq<Byte> := [];
    BeforeNone(all.0);
    while true
      invariant mp.buffer == old(mp.buffer) && mp.buffer != null && mp.Valid()
      invariant Inv(mp.View()) && mp.state in {ReadingPartData, ReadingBoundary}
      invariant var (d, p) := ReadData(mp.View()); all == (Before(data, d), p)
      decreases |mp.buffer.events|, |mp.buffer.buf|
    {
      NextDataChunkStepped(mp.View());
      var chunk := mp.PollNextPartDataChunk();
      match chunk {
        case Pending =>
        case Ready(Err(e)) => return Err(e);
        case Ready(Ok(None)) =>
          assert data + [] == data;
          return Ok(data);
        case Ready(Ok(Some(bytes))) =>
          BeforeOne(data, bytes, ReadData(mp.View()).0);
          data := data + bytes;
      }
    }
  }

  /** Reads the part that is out: its fields until there are none, then its data. */
  method CollectPart(mp: Multipart) returns (r: Result<PartValue>)
    requires mp.Valid() && mp.buffer != null && Inv(mp.View()) && AtPart(mp.View())
    modifies mp, mp.buffer
    ensures mp.buffer == old(mp.buffer) && mp.buffer != null && mp.Valid()
    ensures (r, mp.View()) == ReadPart(old(mp.View()))
  {
    hide AwaitHeaders, ReadFields, ReadData, HeaderLib.ReadsNames, Advances, BlockAt;
    hide Source.Ending, Source.Bytes, Source.Smooth;
    ghost var p0 := mp.View();
    AwaitHeadersReads(p0);
    var h := AwaitHeaderBlock(mp);
    if h.Err? {
      return Err(h.error);
    }
    ghost var p1 := mp.View();
    BlockAtInside(p0.cfg, p0.buffer.Rest(), p0.buffer.source.Ending());
    HeldFields(p0, p1);
    var f := CollectFields(mp);
    if f.Err? {
      return Err(f.error);
    }
    var d := CollectData(mp);
    return if d.Err? then Err(d.error) else Ok(PartValue(f.value, d.value));
  }

  /** The outcome with `parts` before the ones `o` has. */
  function Joined(parts: seq<PartValue>, o: Outcome): Outcome {
    Outcome(parts + o.parts, o.last)
  }

  lemma JoinedOne(parts: seq<PartValue>, part: PartValue, o: Outcome)
    ensures Joined(parts, Preceded(part, o)) == Joined(parts + [part], o)
  {
    assert parts + ([part] + o.parts) == (parts + [part]) + o.parts;
  }

  lemma JoinedNone(o: Outcome)
    ensures Joined([], o) == o
  {
    assert [] + o.parts == o.parts;
  }

  method CollectAll(mp: Multipart) returns (o: Outcome)
    requires mp.Valid() && mp.buffer != null && Inv(mp.View())
    modifies mp, mp.buffer
    ensures o == ReadAll(old(mp.View()))
  {
    hide AwaitPart, ReadPart, Advances, Source.Ending, Source.Bytes, Source.Smooth, Ahead, Inv;
    ghost var all := ReadAll(mp.View());
    var parts: seq<PartValue> := [];
    JoinedNone(all);
    while true
      invariant mp.buffer == old(mp.buffer) && mp.buffer != null && mp.Valid() && Inv(mp.View())
      invariant Joined(parts, ReadAll(mp.View())) == all
      decreases |mp.buffer.View().Rest()|
    {
      ghost var p := mp.View();
      AwaitPartAwaits(p);
      var next := AwaitNextPart(mp);
      assert parts + [] == parts;
      match next {
        case Err(e) => return Outcome(parts, Failed(e));
        case Ok(false) => return Outcome(parts, Finished);
        case Ok(true) =>
          ghost var p1 := mp.View();
          ReadPartReads(p1, false);
          var part := CollectPart(mp);
          if part.Err? {
            return Outcome(parts, Failed(part.error));
          }
          JoinedOne(parts, part.value, ReadAll(mp.View()));
          parts := parts + [part.value];
      }
    }
  }

  /**
   * Parses a body from a stream. Without suspension the outcome is that of the one-shot parse of the
   * bytes the stream delivers; with it, too, unless the body has an exposed line within reach.
   */
  method ParseBody(stream: seq<Event>, boundary: seq<Byte>, maxBufferSize: nat, lib: HeaderLib) returns (o: Outcome)
    requires ValidBoundary(boundary) && lib.Bounded()
    ensures var cfg := Config(boundary, maxBufferSize, lib);
            var (bytes, ending) := (Source(stream, 0).Bytes(), Source(stream, 0).Ending());
            && (Source(stream, 0).Smooth() || !SensitiveBody(cfg, bytes, ending) ==>
                  o == OneShot(cfg, false, bytes, ending))
            && (o == OneShot(cfg, false, bytes, ending) || o == OneShot(cfg, true, bytes, ending))
  {
    hide OneShot, Source.Ending, Source.Bytes, Source.Smooth, ReadAll, SensitiveBody;
    var mp := new Multipart(stream, boundary, maxBufferSize, lib);
    ghost var cfg := Config(boundary, maxBufferSize, lib);
    StartInv(cfg, stream);
    o := CollectAll(mp);
    ResumeSafety(cfg, stream);
    if Source(stream, 0).Smooth() {
      ChunkIndependence(cfg, stream);
    } else if !SensitiveBody(cfg, Source(stream, 0).Bytes(), Source(stream, 0).Ending()) {
      InsensitiveParse(cfg, stream);
    }
  }
}
