/** What the video session uses but does not implement: the host's integer widths and casts,
    the VP8 codec library (Vp8Codec) and the colour-space converter (PixelConverter).
    Both collaborators are foreign code, so they are modelled without any behaviour of their
    own: a Vp8Codec instance records every call made to it, and what it answers is whatever the
    `Engine` supplied with it answers for that call, given all earlier calls to the same instance. */
module Codecs {
  import opened Wrappers

  newtype byte = x: int | 0 <= x < 0x100
  newtype int32 = x: int | -0x8000_0000 <= x < 0x8000_0000
  newtype uint32 = x: int | 0 <= x < 0x1_0000_0000

  type Bytes = seq<byte>

  /** A thrown exception. */
  datatype Error = Error(message: string)

  /** The unchecked C# conversion `(uint)x`: the same 32 bits read as unsigned. */
  function ToUInt32(x: int32): (r: uint32)
    ensures 0 <= x ==> r as int == x as int
    ensures x < 0 ==> r as int == x as int + 0x1_0000_0000
  {
    ((x as int) % 0x1_0000_0000) as uint32
  }

  /** The unchecked C# conversion `(int)x`: the same 32 bits read as signed, the inverse of ToUInt32. */
  function ToInt32(x: uint32): (r: int32)
    ensures ToUInt32(r) == x
    ensures x < 0x8000_0000 ==> r as int == x as int
  {
    if x < 0x8000_0000 then x as int as int32 else (x as int - 0x1_0000_0000) as int32
  }

  /** One call made to a Vp8Codec instance, with its arguments. */
  datatype Call =
    | InitEncoderCall(width: uint32, height: uint32)
    | EncodeCall(i420: Bytes, forceKeyFrame: bool)
    | InitDecoderCall
    | DecodeCall(buffer: Bytes, bufferSize: int)
    | DisposeCall

  /** What a successful Decode hands back: the I420 frames and the dimensions the bitstream reported. */
  datatype Decoded = Decoded(frames: seq<Bytes>, width: uint32, height: uint32)

  /** The behaviour of the VP8 library: each answer is a function of the instance's call history
      and the call's arguments. Every call can throw; Decode can also answer null (None) for a
      packet it cannot decode. */
  datatype Engine = Engine(
    initEncoder: (seq<Call>, uint32, uint32) -> Outcome<Error>,
    encode: (seq<Call>, Bytes, bool) -> Result<Bytes, Error>,
    initDecoder: seq<Call> -> Outcome<Error>,
    decode: (seq<Call>, Bytes, int) -> Result<Option<Decoded>, Error>,
    dispose: seq<Call> -> Outcome<Error>)

  /** One instance of the VP8 library, identified by its object and described by its call log. */
  class Vp8Codec {
    const engine: Engine
    var log: seq<Call>

    constructor (engine: Engine)
      ensures this.engine == engine && log == []
    {
      this.engine := engine;
      log := [];
    }

    method InitialiseEncoder(width: uint32, height: uint32) returns (r: Outcome<Error>)
      modifies this
      ensures r == engine.initEncoder(old(log), width, height)
      ensures log == old(log) + [InitEncoderCall(width, height)]
    {
      r := engine.initEncoder(log, width, height);
      log := log + [InitEncoderCall(width, height)];
    }

    method Encode(i420: Bytes, forceKeyFrame: bool) returns (r: Result<Bytes, Error>)
      modifies this
      ensures r == engine.encode(old(log), i420, forceKeyFrame)
      ensures log == old(log) + [EncodeCall(i420, forceKeyFrame)]
    {
      r := engine.encode(log, i420, forceKeyFrame);
      log := log + [EncodeCall(i420, forceKeyFrame)];
    }

    method InitialiseDecoder() returns (r: Outcome<Error>)
      modifies this
      ensures r == engine.initDecoder(old(log))
      ensures log == old(log) + [InitDecoderCall]
    {
      r := engine.initDecoder(log);
      log := log + [InitDecoderCall];
    }

    method Decode(buffer: Bytes, bufferSize: int) returns (r: Result<Option<Decoded>, Error>)
      modifies this
      ensures r == engine.decode(old(log), buffer, bufferSize)
      ensures log == old(log) + [DecodeCall(buffer, bufferSize)]
    {
      r := engine.decode(log, buffer, bufferSize);
      log := log + [DecodeCall(buffer, bufferSize)];
    }

    method Dispose() returns (r: Outcome<Error>)
      modifies this
      ensures r == engine.dispose(old(log))
      ensures log == old(log) + [DisposeCall]
    {
      r := engine.dispose(log);
      log := log + [DisposeCall];
    }
  }

  /** An opaque layout tag (VideoPixelFormatsEnum). */
  datatype PixelFormat = PixelFormat(tag: int)

  /** The colour-space conversions: any raw layout to I420 (which may throw, e.g. for a layout
      it does not convert), and I420 to interleaved BGR. */
  datatype PixelConverter = PixelConverter(
    toI420: (int32, int32, Bytes, PixelFormat) -> Result<Bytes, Error>,
    i420ToBgr: (Bytes, int32, int32) -> Bytes)
}
