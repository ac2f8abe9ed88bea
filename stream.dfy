/**
 * The multipart chunk framing of the video feed (decodeData): each encoded JPEG is sent
 * between a part header for the boundary "frame" and a blank-line trailer.
 */
module Stream {
  import opened Wrappers

  newtype byte = x: int | 0 <= x < 256

  /** The bytes of a string whose characters are all below 256. */
  function Ascii(s: string): (r: seq<byte>)
    requires forall i :: 0 <= i < |s| ==> s[i] as int < 256
    ensures |r| == |s|
    ensures forall i :: 0 <= i < |s| ==> r[i] as int == s[i] as int
  {
    seq(|s|, i requires 0 <= i < |s| => s[i] as int as byte)
  }

  /** The part header "--frame\r\n Content-Type: image/jpeg\r\n\r\n", including the
      space before "Content-Type" that the program writes (38 bytes). */
  const PartHeader: seq<byte> :=
    [45, 45, 102, 114, 97, 109, 101, 13, 10, 32, 67, 111, 110, 116, 101, 110, 116, 45, 84,
     121, 112, 101, 58, 32, 105, 109, 97, 103, 101, 47, 106, 112, 101, 103, 13, 10, 13, 10]

  /** The part trailer "\r\n\r\n" (4 bytes). */
  const PartTrailer: seq<byte> := [13, 10, 13, 10]

  /** The two byte constants are the ASCII text of the program's literals. */
  lemma FramingIsAscii()
    ensures PartHeader == Ascii("--frame\r\n Content-Type: image/jpeg\r\n\r\n")
    ensures PartTrailer == Ascii("\r\n\r\n")
  {
  }

  /** One chunk of the stream: header, image bytes, trailer. */
  function DecodeData(imageBytes: seq<byte>): (chunk: seq<byte>)
    ensures |chunk| == |imageBytes| + 42
  {
    PartHeader + imageBytes + PartTrailer
  }

  /** The image bytes of a chunk, or None when the bytes are not a framed chunk. */
  function StripFrame(chunk: seq<byte>): (r: Option<seq<byte>>)
    ensures r.Some? ==> |r.value| == |chunk| - 42
  {
    if |chunk| >= 42 && chunk[..38] == PartHeader && chunk[|chunk| - 4..] == PartTrailer
    then Some(chunk[38..|chunk| - 4])
    else None
  }

  /** Stripping the header and the trailer gives back the image bytes. */
  lemma FrameRoundTrip(imageBytes: seq<byte>)
    ensures StripFrame(DecodeData(imageBytes)) == Some(imageBytes)
  {
    var chunk := DecodeData(imageBytes);
    assert |PartHeader| == 38 && |PartTrailer| == 4;
    assert chunk[..38] == PartHeader;
    assert chunk[|chunk| - 4..] == PartTrailer;
    assert chunk[38..|chunk| - 4] == imageBytes;
  }

  /** Conversely, whatever strips to some image bytes is the chunk of those bytes. */
  lemma StripFrameSound(chunk: seq<byte>, imageBytes: seq<byte>)
    requires StripFrame(chunk) == Some(imageBytes)
    ensures DecodeData(imageBytes) == chunk
  {
    assert |PartHeader| == 38 && |PartTrailer| == 4;
    assert chunk == chunk[..38] + chunk[38..|chunk| - 4] + chunk[|chunk| - 4..];
  }

  /** Different images give different chunks. */
  lemma DecodeDataInjective(a: seq<byte>, b: seq<byte>)
    requires DecodeData(a) == DecodeData(b)
    ensures a == b
  {
    FrameRoundTrip(a);
    FrameRoundTrip(b);
  }
}
