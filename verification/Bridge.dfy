/** The bridge around the decoder (bridge.go): what it does to the picture after each frame. */
module VideoBridge {
  import opened Bits
  import BitReading
  import Colour
  import opened Drawing
  import opened Frames
  import opened Decoding
  import opened AspeedDecoder

  /** The decoder, the size of the last frame that decoded, the frames received, the frames still to be blanked, and
      the refresh requests sent. */
  datatype BridgeState = BridgeState(decoder: State, width: nat, height: nat, frames: nat, countdown: nat,
                                     refreshes: nat)

  const INITIAL := BridgeState(State(0, 0, Canvas([], []), FreshTile()), 800, 600, 0, 0, 0)

  function Zeroes(n: nat): (z: seq<Byte>)
    ensures |z| == n
  {
    seq(n, _ => 0)
  }

  function Cleared(s: State): State { s.(canvas := s.canvas.(fb := Zeroes(|s.canvas.fb|))) }

  /** One frame. After a size change later than the first frame, the picture is cleared after this frame and the two
      that follow; the references are kept. A bound that is too small stands for a decoder that does not return. */
  function Deliver(b: BridgeState, k: Coders, sent: Sent, fuel: nat): (r: BridgeState)
    requires Consistent(b.decoder) && Legal(sent.header, k)
    ensures Consistent(r.decoder)
  {
    var (d, result) := Decode(b.decoder, sent.header, k, sent.data, fuel);
    if result != Ok then b.(decoder := d, frames := b.frames + 1, refreshes := b.refreshes + 1)
    else
      var changed := d.width != b.width || d.height != b.height;
      var count := if changed && b.frames + 1 > 1 then 3 else b.countdown;
      BridgeState(if count > 0 then Cleared(d) else d, d.width, d.height, b.frames + 1,
                  if count > 0 then count - 1 else count, b.refreshes + if changed then 1 else 0)
  }

  function DeliverAll(b: BridgeState, k: Coders, frames: seq<Sent>, fuel: nat): (r: BridgeState)
    requires Consistent(b.decoder) && AllLegal(k, frames)
    ensures Consistent(r.decoder)
  {
    if frames == [] then b
    else var n := |frames| - 1; Deliver(DeliverAll(b, k, frames[..n], fuel), k, frames[n], fuel)
  }

  /* The bridge object. */

  class Bridge {
    const decoder: Decoder
    var width: nat
    var height: nat
    var frameCount: nat
    var resChangeCountdown: nat
    var refreshes: nat

    ghost predicate Valid()
      reads this, decoder, decoder.br
    {
      decoder.Valid()
    }

    ghost function Model(): BridgeState
      reads this, decoder, decoder.fb, decoder.prev, decoder.tile
    {
      BridgeState(decoder.Persistent(), width, height, frameCount, resChangeCountdown, refreshes)
    }

    constructor ()
      ensures Valid() && Model() == INITIAL
    {
      decoder := new Decoder();
      width, height, frameCount, resChangeCountdown, refreshes := 800, 600, 0, 0, 0;
    }

    method OnVideoFrame(h: Header, data: seq<Byte>, fuel: nat)
      requires Valid() && Quants(h.quant)
      modifies this, decoder, decoder.br, decoder.coeff, decoder.workspace, decoder.tile, decoder.fb, decoder.prev
      ensures Valid() && Legal(h, decoder.coders)
      ensures Model() == Deliver(old(Model()), decoder.coders, Sent(h, data), fuel)
    {
      hide Coding, Colour.Initialised, BitReading.BitReader.Valid, Decoding.Decode, Cleared;
      frameCount := frameCount + 1;
      var result := decoder.Decode(h, data, fuel);
      if result != Ok {
        refreshes := refreshes + 1;
        return;
      }
      CheckSize();
      BlankFrame();
    }

    /** A new size starts the countdown, except on the first frame, and asks for a full picture. */
    method CheckSize()
      modifies `width, `height, `resChangeCountdown, `refreshes
      ensures width == decoder.width && height == decoder.height
      ensures var changed := old(width) != decoder.width || old(height) != decoder.height;
              && resChangeCountdown == (if changed && frameCount > 1 then 3 else old(resChangeCountdown))
              && refreshes == old(refreshes) + if changed then 1 else 0
    {
      var prevW, prevH := width, height;
      width, height := decoder.width, decoder.height;
      if width != prevW || height != prevH {
        if frameCount > 1 { resChangeCountdown := 3; }
        refreshes := refreshes + 1;
      }
    }

    /** While the countdown runs, the picture is cleared. */
    method BlankFrame()
      requires Valid()
      modifies `resChangeCountdown, decoder.fb
      ensures Valid()
      ensures decoder.Persistent() == if old(resChangeCountdown) > 0 then Cleared(old(decoder.Persistent()))
                                      else old(decoder.Persistent())
      ensures resChangeCountdown == Less(old(resChangeCountdown), 1)
    {
      hide Coding, Colour.Initialised, BitReading.BitReader.Valid;
      if resChangeCountdown > 0 {
        Clear(decoder.fb);
        resChangeCountdown := resChangeCountdown - 1;
      }
    }
  }

  method Clear(fb: array<Byte>)
    modifies fb
    ensures fb[..] == Zeroes(fb.Length)
  {
    for i := 0 to fb.Length
      invariant forall k :: 0 <= k < i ==> fb[k] == 0
    {
      fb[i] := 0;
    }
  }

  /** A frame that does not decode counts and asks for a full picture, and leaves the rest to the decoder. */
  lemma FailureKeeps(b: BridgeState, k: Coders, sent: Sent, fuel: nat)
    requires Consistent(b.decoder) && Legal(sent.header, k)
    requires Decode(b.decoder, sent.header, k, sent.data, fuel).1 != Ok
    ensures var r := Deliver(b, k, sent, fuel);
            && r.decoder == Decode(b.decoder, sent.header, k, sent.data, fuel).0
            && r.width == b.width && r.height == b.height && r.countdown == b.countdown
            && r.frames == b.frames + 1 && r.refreshes == b.refreshes + 1
  {
    hide Coding, Decode;
  }

  /* Complete frames of one size. */

  ghost predicate Finishes(k: Coders, sent: Sent, fuel: nat)
    requires Direct(sent.header, k, sent.data)
  {
    Tiles(sent.header, k, sent.data, fuel).outcome != OutOfFuel
  }

  ghost predicate Clip(f: Frame, k: Coders, frames: seq<Sent>, fuel: nat) {
    && Movie(f, k, frames, fuel)
    && forall i :: 0 <= i < |frames| ==> Shot(f, k, frames[i], fuel) && Finishes(k, frames[i], fuel)
  }

  /** How many frames of a size are blanked from here on. */
  function Blanks(b: BridgeState, f: Frame): nat {
    if (b.width != f.width || b.height != f.height) && b.frames > 0 then 3 else b.countdown
  }

  function Less(a: nat, b: nat): nat { if a > b then a - b else 0 }

  lemma DeliverOne(b: BridgeState, f: Frame, k: Coders, sent: Sent, fuel: nat)
    requires Consistent(b.decoder) && Shot(f, k, sent, fuel) && Finishes(k, sent, fuel)
    ensures Legal(sent.header, k)
    ensures var r, d := Deliver(b, k, sent, fuel), Decode(b.decoder, sent.header, k, sent.data, fuel).0;
            && r.width == f.width && r.height == f.height && r.frames == b.frames + 1
            && r.refreshes == b.refreshes + (if b.width != f.width || b.height != f.height then 1 else 0)
            && r.countdown == Less(Blanks(b, f), 1) && d.width == f.width && d.height == f.height
            && r.decoder == if Blanks(b, f) > 0 then Cleared(d) else d
  {
    hide Coding, Tiles, Decode, PaintAll, FrameOf, Cleared;
    DirectFrame(sent.header, k, sent.data);
    DecodeDrawsTiles(b.decoder, sent.header, k, sent.data, fuel);
  }

  lemma ClipLegal(f: Frame, k: Coders, frames: seq<Sent>, fuel: nat)
    requires Clip(f, k, frames, fuel)
    ensures AllLegal(k, frames)
  {
    hide Legal, Movie, Shot, Finishes;
    MovieLegal(f, k, frames, fuel);
  }

  /** Complete frames of one size, from any state of the bridge: the first few leave a black picture, as many as
      Blanks says; the others draw on that as if nothing had come before, except that references were kept. */
  lemma {:induction false} DeliverExactly(b: BridgeState, f: Frame, k: Coders, frames: seq<Sent>, fuel: nat)
    requires Consistent(b.decoder) && frames != [] && Clip(f, k, frames, fuel)
    ensures AllLegal(k, frames)
    ensures var r, c, n := DeliverAll(b, k, frames, fuel), Blanks(b, f), |frames|;
            && r.width == f.width && r.height == f.height && r.frames == b.frames + n && r.countdown == Less(c, n)
            && r.refreshes == b.refreshes + (if b.width != f.width || b.height != f.height then 1 else 0)
            && r.decoder.width == f.width && r.decoder.height == f.height
            && (n <= c ==> r.decoder.canvas.fb == Zeroes(4 * (f.width * f.height)))
            && (n > c ==> r.decoder == DecodeAll(DeliverAll(b, k, frames[..c], fuel).decoder, k, frames[c..], fuel))
  {
    hide Legal, Shot, Finishes, Decode, Deliver, Movie;
    ClipLegal(f, k, frames, fuel);
    var n, c := |frames| - 1, Blanks(b, f);
    var before, last := frames[..n], frames[n];
    var a := DeliverAll(b, k, before, fuel);
    assert Clip(f, k, before, fuel) by { ClipPrefix(f, k, frames, fuel, n); }
    if n > 0 { DeliverExactly(b, f, k, before, fuel); }
    DeliverOne(a, f, k, last, fuel);
    assert Blanks(a, f) == Less(c, n);
    if n >= c {
      ResumeSplit(b, k, frames, c, n, fuel);
    }
  }

  lemma ClipPrefix(f: Frame, k: Coders, frames: seq<Sent>, fuel: nat, n: nat)
    requires Clip(f, k, frames, fuel) && n <= |frames|
    ensures Clip(f, k, frames[..n], fuel)
  {
    hide Shot, Finishes;
  }

  lemma ResumeSplit(b: BridgeState, k: Coders, frames: seq<Sent>, c: nat, n: nat, fuel: nat)
    requires Consistent(b.decoder) && AllLegal(k, frames) && c <= n == |frames| - 1
    ensures var start := DeliverAll(b, k, frames[..c], fuel).decoder;
            && frames[..n][..c] == frames[..c] && frames[..n][c..] == frames[c..][..n - c]
            && DecodeAll(start, k, frames[c..], fuel) ==
               Decode(DecodeAll(start, k, frames[..n][c..], fuel), frames[n].header, k, frames[n].data, fuel).0
  {
    hide Legal, Decode, DeliverAll;
    var more := frames[c..];
    assert frames[..n][..c] == frames[..c] && frames[..n][c..] == more[..n - c] && more[n - c] == frames[n];
    assert |more| - 1 == n - c;
  }
}
