/** The VideoEncoder session: one encoder handle and one decoder handle, each created on first
    use of its direction, and a pending key-frame flag. Every method of the class is proved
    against a pure step function on the abstract `Session`; properties of several calls in a
    row are proved about the step functions (module SessionProperties). */
module Encoders {
  import opened Wrappers
  import opened Codecs

  /** VideoCodecsEnum; only VP8 matters to this class, every other value is `OtherCodec`. */
  datatype VideoCodec = VP8 | OtherCodec(id: int)

  /** The static list of codecs the class advertises. */
  const SupportedCodecs: seq<VideoCodec> := [VP8]

  /** A decoded picture handed back to the caller. */
  datatype VideoSample = VideoSample(width: uint32, height: uint32, sample: Bytes)

  /** The abstract state of a session: the call log of each handle that exists (None is a null
      field), and the pending key-frame flag. */
  datatype Session = Session(encoder: Option<seq<Call>>, decoder: Option<seq<Call>>, forceKeyFrame: bool)

  /** A newly constructed session: no handle, no pending key frame. */
  const FreshSession := Session(None, None, false)

  // ---------------------------------------------------------------------------------------
  // Key-frame request and disposal

  function ForceKeyFrameStep(s: Session): (r: Session)
    ensures r.forceKeyFrame
    ensures r.encoder == s.encoder && r.decoder == s.decoder
  {
    s.(forceKeyFrame := true)
  }

  /** Disposing a handle that exists; a null one is left alone. */
  function DisposeHandle(h: Option<seq<Call>>): (r: Option<seq<Call>>)
    ensures r.Some? <==> h.Some?
    ensures h.Some? ==> r.value == h.value + [DisposeCall]
  {
    match h
    case None => None
    case Some(log) => Some(log + [DisposeCall])
  }

  datatype DisposeOutcome = DisposeOutcome(session: Session, result: Outcome<Error>)

  /** The session has an encoder, and disposing it throws. */
  predicate EncoderDisposeFails(engine: Engine, s: Session)
  {
    s.encoder.Some? && engine.dispose(s.encoder.value).Fail?
  }

  /** Dispose on the abstract state. The encoder is disposed first; if that throws, the exception
      leaves the method before the decoder is reached. */
  function DisposeStep(engine: Engine, s: Session): (o: DisposeOutcome)
    // an existing encoder always gets its Dispose call
    ensures o.session.encoder == DisposeHandle(s.encoder)
    ensures o.session.forceKeyFrame == s.forceKeyFrame
    // a throwing encoder Dispose propagates and spares the decoder
    ensures EncoderDisposeFails(engine, s) ==>
              o.session.decoder == s.decoder && o.result == Fail(engine.dispose(s.encoder.value).error)
    // otherwise an existing decoder gets its Dispose call, and its exception, if any, propagates
    ensures !EncoderDisposeFails(engine, s) ==>
              o.session.decoder == DisposeHandle(s.decoder) &&
              o.result == (if s.decoder.Some? then engine.dispose(s.decoder.value) else Pass)
    // with no handle there is nothing to dispose
    ensures s.encoder.None? && s.decoder.None? ==> o == DisposeOutcome(s, Pass)
  {
    var first := if s.encoder.Some? then engine.dispose(s.encoder.value) else Pass;
    if first.Fail? then
      DisposeOutcome(s.(encoder := DisposeHandle(s.encoder)), first)
    else
      var second := if s.decoder.Some? then engine.dispose(s.decoder.value) else Pass;
      DisposeOutcome(Session(DisposeHandle(s.encoder), DisposeHandle(s.decoder), s.forceKeyFrame), second)
  }

  // ---------------------------------------------------------------------------------------
  // Encoding

  datatype EncodeOutcome = EncodeOutcome(session: Session, result: Result<Bytes, Error>)

  /** The encoder's log once the lazy creation has run: a new handle carries only its
      InitialiseEncoder call, with this call's dimensions cast to unsigned. */
  function EncoderLogBefore(s: Session, width: int32, height: int32): (log: seq<Call>)
    ensures s.encoder.None? ==> log == [InitEncoderCall(ToUInt32(width), ToUInt32(height))]
    ensures s.encoder.Some? ==> log == s.encoder.value
  {
    if s.encoder.Some? then s.encoder.value else [InitEncoderCall(ToUInt32(width), ToUInt32(height))]
  }

  /** The session initialises a new encoder and that initialisation throws. */
  predicate EncoderInitFails(engine: Engine, s: Session, width: int32, height: int32)
  {
    s.encoder.None? && engine.initEncoder([], ToUInt32(width), ToUInt32(height)).Fail?
  }

  /** The call gets as far as the engine's Encode: initialisation, if attempted, did not throw,
      and the conversion to I420 did not throw. */
  predicate ReachesEncode(engine: Engine, converter: PixelConverter, s: Session,
                          width: int32, height: int32, sample: Bytes, pixelFormat: PixelFormat)
  {
    !EncoderInitFails(engine, s, width, height) && converter.toI420(width, height, sample, pixelFormat).Success?
  }

  /** EncodeVideo on the abstract state. The handle is created and initialised before the frame
      is converted, so a throwing initialisation or conversion still leaves it in place. */
  function EncodeVideoStep(engine: Engine, converter: PixelConverter, s: Session,
                           width: int32, height: int32, sample: Bytes, pixelFormat: PixelFormat): (o: EncodeOutcome)
    // the decoder is not touched
    ensures o.session.decoder == s.decoder
    // the handle exists afterwards and its log grows by the engine's Encode call, if any
    ensures o.session.encoder.Some?
    ensures var log := EncoderLogBefore(s, width, height);
            o.session.encoder.value ==
              if ReachesEncode(engine, converter, s, width, height, sample, pixelFormat)
              then log + [EncodeCall(converter.toI420(width, height, sample, pixelFormat).value, s.forceKeyFrame)]
              else log
    // the pending flag is handed to the engine, and the engine's answer is returned unchanged
    ensures ReachesEncode(engine, converter, s, width, height, sample, pixelFormat) ==>
              o.result == engine.encode(EncoderLogBefore(s, width, height),
                                        converter.toI420(width, height, sample, pixelFormat).value, s.forceKeyFrame)
    // a throwing initialisation or conversion propagates
    ensures EncoderInitFails(engine, s, width, height) ==>
              o.result == Failure(engine.initEncoder([], ToUInt32(width), ToUInt32(height)).error)
    ensures !EncoderInitFails(engine, s, width, height) && !ReachesEncode(engine, converter, s, width, height, sample, pixelFormat) ==>
              o.result == Failure(converter.toI420(width, height, sample, pixelFormat).error)
    // the flag is cleared exactly when the call returns normally
    ensures o.session.forceKeyFrame == (s.forceKeyFrame && o.result.Failure?)
  {
    var log := EncoderLogBefore(s, width, height);
    var init := if s.encoder.Some? then Pass else engine.initEncoder([], ToUInt32(width), ToUInt32(height));
    if init.Fail? then
      EncodeOutcome(s.(encoder := Some(log)), Failure(init.error))
    else
      match converter.toI420(width, height, sample, pixelFormat)
      case Failure(e) => EncodeOutcome(s.(encoder := Some(log)), Failure(e))
      case Success(i420) =>
        var encoded := engine.encode(log, i420, s.forceKeyFrame);
        var session := s.(encoder := Some(log + [EncodeCall(i420, s.forceKeyFrame)]));
        if encoded.Success? && s.forceKeyFrame then
          EncodeOutcome(session.(forceKeyFrame := false), encoded)
        else
          EncodeOutcome(session, encoded)
  }

  // ---------------------------------------------------------------------------------------
  // Decoding

  datatype DecodeOutcome = DecodeOutcome(session: Session, result: Result<seq<VideoSample>, Error>)

  /** The decoder's log once the lazy creation has run. */
  function DecoderLogBefore(s: Session): (log: seq<Call>)
    ensures s.decoder.None? ==> log == [InitDecoderCall]
    ensures s.decoder.Some? ==> log == s.decoder.value
  {
    if s.decoder.Some? then s.decoder.value else [InitDecoderCall]
  }

  /** The session initialises a new decoder and that initialisation throws. */
  predicate DecoderInitFails(engine: Engine, s: Session)
  {
    s.decoder.None? && engine.initDecoder([]).Fail?
  }

  /** The sample handed back for one decoded frame: always converted to BGR, at the dimensions the
      engine reported (cast from unsigned to signed for the converter). */
  function DecodedSample(converter: PixelConverter, frame: Bytes, width: uint32, height: uint32): VideoSample
  {
    VideoSample(width, height, converter.i420ToBgr(frame, ToInt32(width), ToInt32(height)))
  }

  /** One sample per decoded frame, in the engine's order. */
  function DecodedSamples(converter: PixelConverter, frames: seq<Bytes>, width: uint32, height: uint32): (r: seq<VideoSample>)
    ensures |r| == |frames|
    ensures forall i :: 0 <= i < |frames| ==> r[i] == DecodedSample(converter, frames[i], width, height)
  {
    if frames == [] then []
    else [DecodedSample(converter, frames[0], width, height)] + DecodedSamples(converter, frames[1..], width, height)
  }

  /** What the call hands back for the engine's answer to Decode: its exception, nothing for a
      packet it could not decode (null), or one sample per decoded frame, in the engine's order. */
  function DecodedResult(converter: PixelConverter, answer: Result<Option<Decoded>, Error>): (r: Result<seq<VideoSample>, Error>)
    ensures r.Failure? <==> answer.Failure?
    ensures answer.Failure? ==> r.error == answer.error
    ensures answer == Success(None) ==> r == Success([])
    ensures answer.Success? && answer.value.Some? ==>
              var d := answer.value.value;
              |r.value| == |d.frames| &&
              forall i :: 0 <= i < |d.frames| ==>
                r.value[i] == VideoSample(d.width, d.height,
                                          converter.i420ToBgr(d.frames[i], ToInt32(d.width), ToInt32(d.height)))
  {
    match answer
    case Failure(e) => Failure(e)
    case Success(None) => Success([])
    case Success(Some(d)) => Success(DecodedSamples(converter, d.frames, d.width, d.height))
  }

  /** DecodeVideo on the abstract state, evaluated eagerly. */
  function DecodeVideoStep(engine: Engine, converter: PixelConverter, s: Session,
                           frame: Bytes, pixelFormat: PixelFormat): (o: DecodeOutcome)
    // the encoder and the key-frame flag are not touched
    ensures o.session.encoder == s.encoder && o.session.forceKeyFrame == s.forceKeyFrame
    // the decoder exists afterwards, whether or not the call fails
    ensures o.session.decoder.Some?
    // the call fails exactly when a new decoder's initialisation throws or the engine's Decode throws
    ensures o.result.Failure? <==>
              DecoderInitFails(engine, s) || engine.decode(DecoderLogBefore(s), frame, |frame|).Failure?
    ensures DecoderInitFails(engine, s) ==>
              o.session.decoder == Some([InitDecoderCall]) && o.result == Failure(engine.initDecoder([]).error)
    // otherwise the packet and its length go to the engine, and its answer is handed back
    ensures !DecoderInitFails(engine, s) ==>
              o.session.decoder == Some(DecoderLogBefore(s) + [DecodeCall(frame, |frame|)]) &&
              o.result == DecodedResult(converter, engine.decode(DecoderLogBefore(s), frame, |frame|))
  {
    var log := DecoderLogBefore(s);
    var init := if s.decoder.Some? then Pass else engine.initDecoder([]);
    if init.Fail? then
      DecodeOutcome(s.(decoder := Some(log)), Failure(init.error))
    else
      var session := s.(decoder := Some(log + [DecodeCall(frame, |frame|)]));
      match engine.decode(log, frame, |frame|)
      case Failure(e) => DecodeOutcome(session, Failure(e))
      case Success(None) => DecodeOutcome(session, Success([]))
      case Success(Some(d)) => DecodeOutcome(session, Success(DecodedSamples(converter, d.frames, d.width, d.height)))
  }

  // ---------------------------------------------------------------------------------------
  // The session object

  class VideoEncoder {
    const engine: Engine
    const converter: PixelConverter
    var encoder: Vp8Codec?
    var decoder: Vp8Codec?
    var forceKeyFrame: bool

    /** Both handles come from this session's library, and they are two distinct instances. */
    ghost predicate Valid()
      reads this
    {
      (encoder != null ==> encoder.engine == engine) &&
      (decoder != null ==> decoder.engine == engine) &&
      (encoder != null && decoder != null ==> encoder != decoder)
    }

    ghost function Abstract(): Session
      reads this, encoder, decoder
    {
      Session(if encoder == null then None else Some(encoder.log),
              if decoder == null then None else Some(decoder.log),
              forceKeyFrame)
    }

    constructor (engine: Engine, converter: PixelConverter)
      ensures Valid() && Abstract() == FreshSession
      ensures this.engine == engine && this.converter == converter
    {
      this.engine := engine;
      this.converter := converter;
      encoder := null;
      decoder := null;
      forceKeyFrame := false;
    }

    method ForceKeyFrame()
      requires Valid()
      modifies this
      ensures Valid() && Abstract() == ForceKeyFrameStep(old(Abstract()))
      ensures encoder == old(encoder) && decoder == old(decoder)
    {
      forceKeyFrame := true;
    }

    function IsSupported(codec: VideoCodec): (r: bool)
      ensures r <==> codec in SupportedCodecs
    {
      codec == VP8
    }

    method EncodeVideo(width: int32, height: int32, sample: Bytes, pixelFormat: PixelFormat, codec: VideoCodec)
      returns (r: Result<Bytes, Error>)
      requires Valid()
      modifies this, encoder
      ensures Valid()
      ensures var o := EncodeVideoStep(engine, converter, old(Abstract()), width, height, sample, pixelFormat);
              Abstract() == o.session && r == o.result
      ensures decoder == old(decoder)
      ensures old(encoder) != null ==> encoder == old(encoder)
      ensures old(encoder) == null ==> fresh(encoder)
    {
      if encoder == null {
        encoder := new Vp8Codec(engine);
        var init := encoder.InitialiseEncoder(ToUInt32(width), ToUInt32(height));
        assert encoder.log == [InitEncoderCall(ToUInt32(width), ToUInt32(height))];
        if init.Fail? {
          return Failure(init.error);
        }
      }
      var i420 := converter.toI420(width, height, sample, pixelFormat);
      if i420.Failure? {
        return Failure(i420.error);
      }
      var encoded := encoder.Encode(i420.value, forceKeyFrame);
      if encoded.Failure? {
        return encoded;
      }
      if forceKeyFrame {
        forceKeyFrame := false;
      }
      r := encoded;
    }

    method DecodeVideo(frame: Bytes, pixelFormat: PixelFormat, codec: VideoCodec)
      returns (r: Result<seq<VideoSample>, Error>)
      requires Valid()
      modifies this, decoder
      ensures Valid()
      ensures var o := DecodeVideoStep(engine, converter, old(Abstract()), frame, pixelFormat);
              Abstract() == o.session && r == o.result
      ensures encoder == old(encoder)
      ensures old(decoder) != null ==> decoder == old(decoder)
      ensures old(decoder) == null ==> fresh(decoder)
    {
      if decoder == null {
        decoder := new Vp8Codec(engine);
        var init := decoder.InitialiseDecoder();
        assert decoder.log == [InitDecoderCall];
        if init.Fail? {
          return Failure(init.error);
        }
      }
      var decodedFrames := decoder.Decode(frame, |frame|);
      if decodedFrames.Failure? {
        return Failure(decodedFrames.error);
      }
      if decodedFrames.value.None? {
        // the source logs a warning here and yields nothing
        return Success([]);
      }
      var d := decodedFrames.value.value;
      var samples: seq<VideoSample> := [];
      for i := 0 to |d.frames|
        invariant samples == DecodedSamples(converter, d.frames[..i], d.width, d.height)
      {
        var bgr := converter.i420ToBgr(d.frames[i], ToInt32(d.width), ToInt32(d.height));
        samples := samples + [VideoSample(d.width, d.height, bgr)];
        assert d.frames[..i + 1] == d.frames[..i] + [d.frames[i]];
      }
      assert d.frames[..|d.frames|] == d.frames;
      r := Success(samples);
    }

    method Dispose() returns (r: Outcome<Error>)
      requires Valid()
      modifies encoder, decoder
      ensures Valid()
      ensures var o := DisposeStep(engine, old(Abstract()));
              Abstract() == o.session && r == o.result
    {
      if encoder != null {
        r := encoder.Dispose();
        if r.Fail? {
          return;
        }
      }
      r := Pass;
      if decoder != null {
        r := decoder.Dispose();
      }
    }
  }
}
