// Entropy-coded data as bytes: stuffed zeros, markers, and what a reader sees of them
// (the destination side of jcarith.c and jchuff.c, the source side of jdarith.c,
// jdhuff.c and next_marker of jdmarker.c).

module ByteStream {
  import opened Prelude

  // A data byte as it appears in the stream: 0xFF is followed by a stuffed zero.
  function Stuffed(b: byte): seq<byte> {
    if b == 0xFF then [0xFF, 0] else [b]
  }

  function Stuff(s: seq<byte>): seq<byte> {
    if s == [] then [] else Stuffed(s[0]) + Stuff(s[1..])
  }

  // The compressed data still to be read, and the marker code that was met, or
  // zero if none was met yet.
  datatype Source = Source(bytes: seq<byte>, marker: byte)

  // The first byte after a run of 0xFF fill bytes, and what follows it.
  function SkipFill(bytes: seq<byte>): (r: Option<(byte, seq<byte>)>)
    ensures r.Some? ==> r.value.0 != 0xFF && |r.value.1| < |bytes|
  {
    if bytes == [] then None
    else if bytes[0] == 0xFF then SkipFill(bytes[1..])
    else Some((bytes[0], bytes[1..]))
  }

  // The next data byte. Once a marker was met zeros are supplied for ever; None
  // means that the data source had to suspend, which the decoder cannot do.
  function NextData(s: Source): Option<(byte, Source)>
  {
    if s.marker != 0 then Some((0, s))
    else if s.bytes == [] then None
    else if s.bytes[0] != 0xFF then Some((s.bytes[0], Source(s.bytes[1..], 0)))
    else match SkipFill(s.bytes[1..])
      case None => None
      case Some((b, rest)) =>
        if b == 0 then Some((0xFF, Source(rest, 0))) else Some((0, Source(rest, b)))
  }

  predicate IsMarker(m: byte) {
    m != 0 && m != 0xFF
  }

  // The source holds the data bytes t, then a marker, then anything.
  ghost predicate Feeds(src: Source, t: seq<byte>, marker: byte, after: seq<byte>) {
    if src.marker == 0 then src.bytes == Stuff(t) + [0xFF, marker] + after
    else t == [] && src.marker == marker && src.bytes == after
  }

  lemma NextDataAtMarker(src: Source, marker: byte, after: seq<byte>)
    requires IsMarker(marker) && Feeds(src, [], marker, after)
    ensures NextData(src) == Some((0, Source(after, marker)))
  {
    if src.marker == 0 {
      assert src.bytes == [0xFF, marker] + after;
      assert src.bytes[1..] == [marker] + after;
      assert ([marker] + after)[1..] == after;
    }
  }

  lemma NextDataByte(src: Source, b: byte, after: seq<byte>)
    requires src == Source(Stuffed(b) + after, 0)
    ensures NextData(src) == Some((b, Source(after, 0)))
  {
    if b == 0xFF {
      assert src.bytes[1..] == [0] + after;
      assert ([0] + after)[1..] == after;
    } else {
      assert src.bytes[1..] == after;
    }
  }

  // What follows the first 0xFF.
  function AfterFF(bytes: seq<byte>): (r: Option<seq<byte>>)
    ensures r.Some? ==> |r.value| < |bytes|
  {
    if bytes == [] then None
    else if bytes[0] == 0xFF then Some(bytes[1..])
    else AfterFF(bytes[1..])
  }

  // The next marker in a byte stream and what follows it; fill bytes may precede the
  // code and stuffed zeros are data.
  function FindMarker(bytes: seq<byte>): (r: Option<(byte, seq<byte>)>)
    ensures r.Some? ==> IsMarker(r.value.0) && |r.value.1| < |bytes|
    decreases |bytes|
  {
    match AfterFF(bytes)
    case None => None
    case Some(fill) =>
      match SkipFill(fill)
      case None => None
      case Some((b, rest)) => if b != 0 then Some((b, rest)) else FindMarker(rest)
  }

  lemma {:induction false} MarkerFound(t: seq<byte>, marker: byte, after: seq<byte>)
    requires IsMarker(marker)
    ensures FindMarker(Stuff(t) + [0xFF, marker] + after) == Some((marker, after))
  {
    var bytes := Stuff(t) + [0xFF, marker] + after;
    if t == [] {
      assert bytes[1..] == [marker] + after;
      assert ([marker] + after)[1..] == after;
    } else {
      var tail := Stuff(t[1..]) + [0xFF, marker] + after;
      MarkerFound(t[1..], marker, after);
      assert bytes == Stuffed(t[0]) + tail;
      if t[0] == 0xFF {
        assert bytes[1..] == [0] + tail;
        assert ([0] + tail)[1..] == tail;
      } else {
        assert bytes[1..] == tail;
        assert AfterFF(bytes) == AfterFF(tail);
      }
    }
  }

  // Whatever is asked of the decoder, its source keeps a tail of the data and then
  // the same marker.
  ghost predicate Before(src: Source, marker: byte, after: seq<byte>) {
    exists t :: Feeds(src, t, marker, after)
  }

  // The next marker, if it was not met yet, and what follows it.
  function MarkerAhead(src: Source): Option<(byte, seq<byte>)> {
    if src.marker != 0 then Some((src.marker, src.bytes)) else FindMarker(src.bytes)
  }

  lemma MarkerBehind(src: Source, marker: byte, after: seq<byte>)
    requires IsMarker(marker) && Before(src, marker, after)
    ensures MarkerAhead(src) == Some((marker, after))
  {
    var t :| Feeds(src, t, marker, after);
    MarkerFound(t, marker, after);
  }
}
