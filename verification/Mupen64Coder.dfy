/** The mupen64plus button coder, the instance for which the assumptions that the
    other modules make about coders are discharged. */
module Mupen64Coder {
  import opened NetplayTypes
  import opened HandlerModel
  import opened Lockstep
  import opened GameLoop

  /** BUTTONS. Its header is not part of the repository, and so nothing is known of the
      width of its fields: they are whole numbers here, and `DecodeButtons` is told what
      becomes of a number that is stored in an axis. */
  datatype Buttons = Buttons(
    dPad: Cross<int>, cButtons: Cross<int>, face: Face<int>, others: Others<int>, xAxis: int, yAxis: int)

  function EncodeCross(c: Cross<int>): Cross<bool> {
    Cross(right := c.right == 1, left := c.left == 1, down := c.down == 1, up := c.up == 1)
  }

  function EncodeFace(k: Face<int>): Face<bool> {
    Face(start := k.start == 1, z := k.z == 1, b := k.b == 1, a := k.a == 1)
  }

  function EncodeOthers(o: Others<int>): Others<bool> {
    Others(leftTrigger := o.leftTrigger == 1, rightTrigger := o.rightTrigger == 1,
           reserved1 := o.reserved1 == 1, reserved2 := o.reserved2 == 1)
  }

  function EncodeButtons(b: Buttons): Pad {
    Pad(EncodeCross(b.dPad), EncodeCross(b.cButtons), EncodeFace(b.face), EncodeOthers(b.others), b.xAxis, b.yAxis)
  }

  predicate IsBit(v: int) {
    v == 0 || v == 1
  }

  predicate CrossOneBit(c: Cross<int>) {
    IsBit(c.right) && IsBit(c.left) && IsBit(c.down) && IsBit(c.up)
  }

  predicate FaceOneBit(k: Face<int>) {
    IsBit(k.start) && IsBit(k.z) && IsBit(k.b) && IsBit(k.a)
  }

  predicate OthersOneBit(o: Others<int>) {
    IsBit(o.leftTrigger) && IsBit(o.rightTrigger) && IsBit(o.reserved1) && IsBit(o.reserved2)
  }

  predicate OneBit(b: Buttons) {
    CrossOneBit(b.dPad) && CrossOneBit(b.cButtons) && FaceOneBit(b.face) && OthersOneBit(b.others)
  }

  function Bit(flag: bool): (v: int)
    ensures IsBit(v)
  {
    if flag then 1 else 0
  }

  function DecodeCross(c: Cross<bool>): (r: Cross<int>)
    ensures CrossOneBit(r)
  {
    Cross(right := Bit(c.right), left := Bit(c.left), down := Bit(c.down), up := Bit(c.up))
  }

  function DecodeFace(k: Face<bool>): (r: Face<int>)
    ensures FaceOneBit(r)
  {
    Face(start := Bit(k.start), z := Bit(k.z), b := Bit(k.b), a := Bit(k.a))
  }

  function DecodeOthers(o: Others<bool>): (r: Others<int>)
    ensures OthersOneBit(r)
  {
    Others(leftTrigger := Bit(o.leftTrigger), rightTrigger := Bit(o.rightTrigger),
           reserved1 := Bit(o.reserved1), reserved2 := Bit(o.reserved2))
  }

  function DecodeButtons(pad: Pad, store: int -> int): (b: Buttons)
    ensures OneBit(b)
  {
    Buttons(DecodeCross(pad.dPad), DecodeCross(pad.cButtons), DecodeFace(pad.face), DecodeOthers(pad.others),
            store(pad.xAxis), store(pad.yAxis))
  }

  /** Pressed in the emulator if and only if pressed in the message. */
  predicate Same(v: int, flag: bool) {
    flag <==> v == 1
  }

  predicate SameCross(c: Cross<int>, f: Cross<bool>) {
    Same(c.up, f.up) && Same(c.down, f.down) && Same(c.left, f.left) && Same(c.right, f.right)
  }

  predicate SameFace(k: Face<int>, f: Face<bool>) {
    Same(k.a, f.a) && Same(k.b, f.b) && Same(k.z, f.z) && Same(k.start, f.start)
  }

  predicate SameOthers(o: Others<int>, f: Others<bool>) {
    && Same(o.leftTrigger, f.leftTrigger) && Same(o.rightTrigger, f.rightTrigger)
    && Same(o.reserved1, f.reserved1) && Same(o.reserved2, f.reserved2)
  }

  /** The same buttons are pressed, name by name. */
  predicate SameButtons(b: Buttons, pad: Pad) {
    && SameCross(b.dPad, pad.dPad) && SameCross(b.cButtons, pad.cButtons)
    && SameFace(b.face, pad.face) && SameOthers(b.others, pad.others)
  }

  lemma CrossRoundTrip(c: Cross<int>, f: Cross<bool>)
    ensures SameCross(c, EncodeCross(c)) && SameCross(DecodeCross(f), f)
    ensures DecodeCross(EncodeCross(c)) == c <==> CrossOneBit(c)
    ensures EncodeCross(DecodeCross(f)) == f
  {
  }

  lemma FaceRoundTrip(k: Face<int>, f: Face<bool>)
    ensures SameFace(k, EncodeFace(k)) && SameFace(DecodeFace(f), f)
    ensures DecodeFace(EncodeFace(k)) == k <==> FaceOneBit(k)
    ensures EncodeFace(DecodeFace(f)) == f
  {
  }

  lemma OthersRoundTrip(o: Others<int>, f: Others<bool>)
    ensures SameOthers(o, EncodeOthers(o)) && SameOthers(DecodeOthers(f), f)
    ensures DecodeOthers(EncodeOthers(o)) == o <==> OthersOneBit(o)
    ensures EncodeOthers(DecodeOthers(f)) == f
  {
  }

  lemma GroupsRoundTrip(b: Buttons, pad: Pad)
    ensures SameButtons(b, EncodeButtons(b)) && SameButtons(DecodeButtons(pad, x => x), pad)
    ensures DecodeCross(EncodeCross(b.dPad)) == b.dPad <==> CrossOneBit(b.dPad)
    ensures DecodeCross(EncodeCross(b.cButtons)) == b.cButtons <==> CrossOneBit(b.cButtons)
    ensures DecodeFace(EncodeFace(b.face)) == b.face <==> FaceOneBit(b.face)
    ensures DecodeOthers(EncodeOthers(b.others)) == b.others <==> OthersOneBit(b.others)
    ensures EncodeCross(DecodeCross(pad.dPad)) == pad.dPad && EncodeCross(DecodeCross(pad.cButtons)) == pad.cButtons
    ensures EncodeFace(DecodeFace(pad.face)) == pad.face && EncodeOthers(DecodeOthers(pad.others)) == pad.others
  {
    CrossRoundTrip(b.dPad, pad.dPad);
    CrossRoundTrip(b.cButtons, pad.cButtons);
    FaceRoundTrip(b.face, pad.face);
    OthersRoundTrip(b.others, pad.others);
  }

  /** Encoding and decoding keep every button where it belongs. */
  lemma ButtonsKeepTheirNames(b: Buttons, pad: Pad, store: int -> int)
    ensures var sent, got := EncodeButtons(b), DecodeButtons(pad, store);
            && SameButtons(b, sent) && sent.xAxis == b.xAxis && sent.yAxis == b.yAxis
            && SameButtons(got, pad) && got.xAxis == store(pad.xAxis) && got.yAxis == store(pad.yAxis)
  {
    GroupsRoundTrip(b, pad);
  }

  /** Whether an axis can store these two values. */
  predicate AxesFit(xAxis: int, yAxis: int, store: int -> int) {
    store(xAxis) == xAxis && store(yAxis) == yAxis
  }

  /** Decoding undoes encoding exactly if the digital buttons are 0 or 1 and the axes
      fit; encoding undoes decoding exactly if the axes of the message fit. */
  lemma RoundTripIffOneBit(b: Buttons, pad: Pad, store: int -> int)
    ensures DecodeButtons(EncodeButtons(b), store) == b <==> OneBit(b) && AxesFit(b.xAxis, b.yAxis, store)
    ensures EncodeButtons(DecodeButtons(pad, store)) == pad <==> AxesFit(pad.xAxis, pad.yAxis, store)
  {
    GroupsRoundTrip(b, pad);
  }

  /** From here on it is assumed that the digital buttons are one bit wide and that an
      axis can store every value that another client's axis held. */
  type PadButtons = b: Buttons | OneBit(b)
    witness Buttons(Cross(0, 0, 0, 0), Cross(0, 0, 0, 0), Face(0, 0, 0, 0), Others(0, 0, 0, 0), 0, 0)

  /** Neither direction ever fails. */
  function ButtonCoder(): Coder<PadButtons> {
    Coder(b => Some(EncodeButtons(b)), (pad: Pad) => Some(Decoded(pad)))
  }

  function Decoded(pad: Pad): PadButtons {
    DecodeButtons(pad, x => x)
  }

  /** With this coder, a game is playable as soon as the server does its part. */
  lemma PluginGamesArePlayable(cfg: Config<PadButtons>)
    requires cfg.coder == ButtonCoder() && 0 < cfg.consoleId
    requires forall c | 0 <= c < |cfg.locals| :: WellFormed(cfg.locals[c], cfg.ports)
    requires forall c, d | 0 <= c < d < |cfg.locals| :: cfg.locals[c] !! cfg.locals[d]
    requires forall i | 0 <= i < |cfg.ports| :: 0 <= cfg.ports[i].delayFrames
    requires forall p <- PortSet(cfg.ports) :: exists o: nat :: Owns(cfg, o, p)
    ensures Playable(cfg)
  {
    forall b: PadButtons
      ensures cfg.coder.Encode(b) == Some(EncodeButtons(b))
      ensures cfg.coder.Decode(EncodeButtons(b)) == Some(b)
    {
      RoundTripIffOneBit(b, EncodeButtons(b), x => x);
    }
  }
}
