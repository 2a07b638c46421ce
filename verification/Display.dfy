/** From the frames the client delivers to the colours a VNC viewer reads. */
module Display {
  import opened Bits
  import opened Colour
  import opened Drawing
  import opened History
  import opened Frames
  import opened Decoding
  import opened VideoBridge
  import opened Vnc
  import VideoHeaders
  import IvtpClient
  import Ivtp

  /** The four scaled quantisation tables for a table selector, an advance selector and a chroma mapping. */
  type Quantiser = (nat, nat, nat) -> seq<seq<int>>

  function Field(values: seq<nat>, field: VideoHeaders.Field): nat
    requires |values| == |VideoHeaders.LAYOUT|
  {
    VideoHeaders.FieldValue(VideoHeaders.LAYOUT, values, field)
  }

  /** What the decoder takes from a video header. */
  function HeaderOf(values: seq<nat>, tables: Quantiser): Header
    requires |values| == |VideoHeaders.LAYOUT|
  {
    Header(Field(values, VideoHeaders.SrcX), Field(values, VideoHeaders.SrcY),
           Field(values, VideoHeaders.DstX), Field(values, VideoHeaders.DstY),
           Field(values, VideoHeaders.Mode420), Field(values, VideoHeaders.CompressSize),
           tables(Field(values, VideoHeaders.JpegTableSelector), Field(values, VideoHeaders.AdvTableSelector),
                  Field(values, VideoHeaders.JpegYuvTableMapping)))
  }

  lemma ShownFits(frame: seq<Byte>)
    requires |frame| >= VideoHeaders.VIDEO_HEADER_SIZE
    ensures var shown := IvtpClient.Show(frame);
            && |shown| == 1 && |shown[0].header| == |VideoHeaders.LAYOUT|
            && VideoHeaders.Fits(VideoHeaders.LAYOUT, shown[0].header)
  {
    hide VideoHeaders.DecodeFields, VideoHeaders.EncodeVideoHeader;
    VideoHeaders.VideoHeaderExactly(frame, VideoHeaders.VideoHeader(frame).value);
  }

  /** A frame that the client's reassembly delivers, as the decoder receives it. */
  function Received(frame: seq<Byte>, tables: Quantiser): Sent
    requires |frame| >= VideoHeaders.VIDEO_HEADER_SIZE
  {
    ShownFits(frame);
    var shown := IvtpClient.Show(frame)[0];
    Sent(HeaderOf(shown.header, tables), shown.data)
  }

  function ReceivedAll(frames: seq<seq<Byte>>, tables: Quantiser): (r: seq<Sent>)
    requires forall i :: 0 <= i < |frames| ==> |frames[i]| >= VideoHeaders.VIDEO_HEADER_SIZE
    ensures |r| == |frames|
  {
    seq(|frames|, i requires 0 <= i < |frames| => Received(frames[i], tables))
  }

  function Number2(b: seq<Byte>, o: nat): nat
    requires o + 2 <= |b|
  {
    (b[o] as int) + 256 * (b[o + 1] as int)
  }

  /** The decoder's header by byte offsets in the delivered frame. */
  lemma ReceivedBytes(frame: seq<Byte>, tables: Quantiser)
    requires |frame| >= VideoHeaders.VIDEO_HEADER_SIZE
    ensures var sent := Received(frame, tables);
            && sent.header.srcX == Number2(frame, 4) && sent.header.srcY == Number2(frame, 6)
            && sent.header.dstX == Number2(frame, 13) && sent.header.dstY == Number2(frame, 15)
            && sent.header.mode == frame[55]
            && sent.header.compressSize == Number2(frame, 69) + 65536 * Number2(frame, 71)
            && sent.header.quant == tables(frame[44], frame[47], frame[45])
            && sent.data == frame[86..]
  {
    hide Ivtp.FromLe, VideoHeaders.LAYOUT, VideoHeaders.FieldValue, VideoHeaders.DecodeFields;
    ShownFits(frame);
    VideoHeaders.SourceOffsets(frame);
    VideoHeaders.PictureOffsets(frame);
    VideoHeaders.SelectorOffsets(frame);
    VideoHeaders.FrameOffsets(frame);
    Ivtp.NumberOfBytes(frame[4..6]);
    Ivtp.NumberOfBytes(frame[6..8]);
    Ivtp.NumberOfBytes(frame[13..15]);
    Ivtp.NumberOfBytes(frame[15..17]);
    Ivtp.NumberOfBytes(frame[69..73]);
  }

  lemma ReceivedSizes(frame: seq<Byte>, tables: Quantiser)
    requires |frame| >= VideoHeaders.VIDEO_HEADER_SIZE
    ensures var h := Received(frame, tables).header; h.dstX < 65536 && h.dstY < 65536
  {
    hide VideoHeaders.LAYOUT, VideoHeaders.FieldValue;
    ShownFits(frame);
    VideoHeaders.SizesBound(IvtpClient.Show(frame)[0].header);
  }

  ghost predicate Whole(frames: seq<seq<Byte>>) {
    forall n :: 0 <= n < |frames| ==> |frames[n]| >= VideoHeaders.VIDEO_HEADER_SIZE
  }

  /** The picture of a bridge that has received the frames. */
  ghost function Picture(b: BridgeState, k: Coders, sent: seq<Sent>, fuel: nat): seq<Byte>
    requires Consistent(b.decoder) && AllLegal(k, sent)
  {
    DeliverAll(b, k, sent, fuel).decoder.canvas.fb
  }

  /** The picture on which the frames after the blanked ones are drawn. */
  ghost function Ground(b: BridgeState, f: Frame, k: Coders, sent: seq<Sent>, fuel: nat): State
    requires Consistent(b.decoder) && AllLegal(k, sent) && Blanks(b, f) <= |sent|
  {
    Fitted(DeliverAll(b, k, sent[..Blanks(b, f)], fuel).decoder, f)
  }

  /** What complete frames of one size leave on the screen, whatever the bridge did before. As long as the bridge
      blanks frames, every viewer reads black everywhere. */
  lemma ViewersSeeBlack(b: BridgeState, k: Coders, frames: seq<seq<Byte>>, tables: Quantiser, fuel: nat,
                        f: Frame, x: nat, y: nat)
    requires Consistent(b.decoder) && frames != [] && Whole(frames) && x < f.width && y < f.height
    requires Clip(f, k, ReceivedAll(frames, tables), fuel) && |frames| <= Blanks(b, f)
    ensures AllLegal(k, ReceivedAll(frames, tables))
    ensures var fb := Picture(b, k, ReceivedAll(frames, tables), fuel);
            && f.width < 65536 && f.height < 65536 && |fb| == 4 * (f.width * f.height) && 4 * Linear(f, x, y) + 3 < |fb|
            && ViewerReads(fb, f.width, f.height, Linear(f, x, y)) == Rgb8(0, 0, 0)
  {
    hide AllLegal, DeliverAll, ViewerReads, Linear, Received, Blanks, Shot, Finishes;
    var sent := ReceivedAll(frames, tables);
    ScreenSize(f, k, frames, tables, fuel);
    DeliverExactly(b, f, k, sent, fuel);
    var fb := Picture(b, k, sent, fuel);
    ClientSeesPixel(fb, f.width, f.height, Linear(f, x, y));
  }

  /** The tiles of the frames after the blanked ones. */
  ghost function DrawnTiles(b: BridgeState, f: Frame, k: Coders, sent: seq<Sent>, fuel: nat): (es: seq<Event>)
    requires Clip(f, k, sent, fuel) && Blanks(b, f) < |sent|
    ensures AllProper(f, es) && Plain(f)
  {
    hide Shot, Finishes, Blanks;
    MovieSizes(f, k, sent, fuel);
    MovieTiles(f, k, sent[Blanks(b, f)..], fuel)
  }

  /** What a viewer should read: the colour of the last tile drawn there, or what was there before. */
  ghost predicate Reads(f: Frame, es: seq<Event>, x: nat, y: nat, now: Rgb8, before: Rgb8)
    requires AllProper(f, es) && f.mode == 0
  {
    && (forall i: nat :: IsLast(f, es, i, x, y, true) ==> now == Converted(SampleAt(es[i], x, y)))
    && (NoneCovers(f, es, x, y, true) ==> now == before)
  }

  /** From then on, every viewer reads at every pixel the clamped integer conversion of the sample that the last
      non-neutral tile covering it gives it, among the tiles of the frames after the blanked ones; without such a
      tile it reads what the ground has there, which is black if frames were blanked. */
  lemma ViewersSeeFrames(b: BridgeState, k: Coders, frames: seq<seq<Byte>>, tables: Quantiser, fuel: nat,
                         f: Frame, x: nat, y: nat)
    requires Consistent(b.decoder) && Whole(frames) && x < f.width && y < f.height
    requires Clip(f, k, ReceivedAll(frames, tables), fuel) && |frames| > Blanks(b, f)
    requires FirstPassOnly(DrawnTiles(b, f, k, ReceivedAll(frames, tables), fuel))
    ensures AllLegal(k, ReceivedAll(frames, tables)) && f.width < 65536 && f.height < 65536
    ensures var sent := ReceivedAll(frames, tables);
            var fb, ground := Picture(b, k, sent, fuel), Ground(b, f, k, sent, fuel).canvas.fb;
            && |fb| == |ground| == 4 * (f.width * f.height) && 4 * Linear(f, x, y) + 3 < |fb|
            && (Blanks(b, f) > 0 ==> ground == Zeroes(|ground|))
            && Reads(f, DrawnTiles(b, f, k, sent, fuel), x, y,
                     ViewerReads(fb, f.width, f.height, Linear(f, x, y)),
                     ViewerReads(ground, f.width, f.height, Linear(f, x, y)))
  {
    hide AllLegal, DeliverAll, DecodeAll, MovieTiles, Linear, Received, Shot, Finishes, Blanks, Reads, ViewerReads,
      Fitted;
    var sent, c := ReceivedAll(frames, tables), Blanks(b, f);
    ScreenSize(f, k, frames, tables, fuel);
    DeliverExactly(b, f, k, sent, fuel);
    GroundBlack(b, f, k, sent, fuel);
    var from := DeliverAll(b, k, sent[..c], fuel).decoder;
    MovieFits(from, f, k, sent[c..], fuel);
    ViewersSeeMovie(Fitted(from, f), f, k, sent[c..], fuel, x, y);
  }

  lemma ScreenSize(f: Frame, k: Coders, frames: seq<seq<Byte>>, tables: Quantiser, fuel: nat)
    requires frames != [] && Whole(frames) && Movie(f, k, ReceivedAll(frames, tables), fuel)
    ensures f.width < 65536 && f.height < 65536
  {
    hide Received, Movie;
    var sent := ReceivedAll(frames, tables);
    assert sent[0] == Received(frames[0], tables);
    MovieSizes(f, k, sent, fuel);
    ReceivedSizes(frames[0], tables);
  }

  lemma GroundBlack(b: BridgeState, f: Frame, k: Coders, sent: seq<Sent>, fuel: nat)
    requires Consistent(b.decoder) && Clip(f, k, sent, fuel) && AllLegal(k, sent) && Blanks(b, f) <= |sent|
    ensures AllLegal(k, sent[..Blanks(b, f)])
    ensures Blanks(b, f) > 0 ==> Ground(b, f, k, sent, fuel).canvas.fb == Zeroes(4 * (f.width * f.height))
  {
    hide DeliverAll, Shot, Finishes, Blanks, Legal;
    var c := Blanks(b, f);
    if c > 0 {
      ClipPrefix(f, k, sent, fuel, c);
      DeliverExactly(b, f, k, sent[..c], fuel);
    }
  }

  lemma ViewersSeeMovie(s: State, f: Frame, k: Coders, sent: seq<Sent>, fuel: nat, x: nat, y: nat)
    requires Consistent(s) && s.width == f.width < 65536 && s.height == f.height < 65536
    requires x < f.width && y < f.height && sent != []
    requires Movie(f, k, sent, fuel) && FirstPassOnly(MovieTiles(f, k, sent, fuel))
    ensures AllLegal(k, sent) && f.mode == 0
    ensures var fb := DecodeAll(s, k, sent, fuel).canvas.fb;
            && |fb| == |s.canvas.fb| == 4 * (f.width * f.height) && 4 * Linear(f, x, y) + 3 < |fb|
            && Reads(f, MovieTiles(f, k, sent, fuel), x, y, ViewerReads(fb, f.width, f.height, Linear(f, x, y)),
                     ViewerReads(s.canvas.fb, f.width, f.height, Linear(f, x, y)))
  {
    hide AllLegal, MovieTiles, DecodeAll, ViewerReads, Converted, Rgb, Linear, Movie, Fitted;
    var es := MovieTiles(f, k, sent, fuel);
    MovieSizes(f, k, sent, fuel);
    MovieEights(f, k, sent, fuel);
    MovieHistory(s, f, k, sent, fuel, x, y);
    var fb, q := DecodeAll(s, k, sent, fuel).canvas.fb, Linear(f, x, y);
    ClientSeesPixel(fb, f.width, f.height, q);
    ClientSeesPixel(s.canvas.fb, f.width, f.height, q);
    forall i: nat | IsLast(f, es, i, x, y, true)
      ensures ViewerReads(fb, f.width, f.height, q) == Converted(SampleAt(es[i], x, y))
    {
      ClientSeesSample(fb, f.width, f.height, q, SampleAt(es[i], x, y));
    }
  }

  lemma MovieSizes(f: Frame, k: Coders, sent: seq<Sent>, fuel: nat)
    requires sent != [] && Movie(f, k, sent, fuel)
    ensures Plain(f) && f.width == sent[0].header.dstX && f.height == sent[0].header.dstY
  {
    hide Legal, Tiles, FrameOf;
    assert Shot(f, k, sent[0], fuel);
    DirectFrame(sent[0].header, k, sent[0].data);
  }

  lemma {:induction false} MovieEights(f: Frame, k: Coders, sent: seq<Sent>, fuel: nat)
    requires Movie(f, k, sent, fuel)
    ensures Eights(MovieTiles(f, k, sent, fuel))
  {
    hide Legal, Tiles, FrameOf;
    if sent != [] {
      var n := |sent| - 1;
      MovieEights(f, k, sent[..n], fuel);
      assert Shot(f, k, sent[n], fuel);
      TilesFacts(sent[n].header, k, sent[n].data, fuel);
    }
  }
}
