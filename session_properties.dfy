/** Properties of a VideoEncoder session over several calls: each handle is initialised at most
    once and with the first call's dimensions, the key-frame flag is handed to exactly one
    successful Encode, a bad packet does not cost the decoder, and the two directions do not
    interfere. The class's methods are proved equal to the step functions, so each property
    here holds of the object as well. */
module SessionProperties {
  import opened Wrappers
  import opened Codecs
  import opened Encoders

  /** A call a client makes on the session. */
  datatype Request =
    | ForceKeyFrameRequest
    | EncodeRequest(width: int32, height: int32, sample: Bytes, pixelFormat: PixelFormat)
    | DecodeRequest(frame: Bytes, pixelFormat: PixelFormat)
    | DisposeRequest

  function EncodeStep(engine: Engine, converter: PixelConverter, s: Session, a: Request): EncodeOutcome
    requires a.EncodeRequest?
  {
    EncodeVideoStep(engine, converter, s, a.width, a.height, a.sample, a.pixelFormat)
  }

  function Step(engine: Engine, converter: PixelConverter, s: Session, req: Request): Session
  {
    match req
    case ForceKeyFrameRequest => ForceKeyFrameStep(s)
    case EncodeRequest(_, _, _, _) => EncodeStep(engine, converter, s, req).session
    case DecodeRequest(frame, pixelFormat) => DecodeVideoStep(engine, converter, s, frame, pixelFormat).session
    case DisposeRequest => DisposeStep(engine, s).session
  }

  /** The session after the requests, made one after the other. */
  function Run(engine: Engine, converter: PixelConverter, s: Session, reqs: seq<Request>): Session
    decreases |reqs|
  {
    if reqs == [] then s else Run(engine, converter, Step(engine, converter, s, reqs[0]), reqs[1..])
  }

  /** The first encode request of a sequence, if there is one. */
  function FirstEncode(reqs: seq<Request>): (r: Option<Request>)
    ensures r.Some? ==> r.value.EncodeRequest?
  {
    if reqs == [] then None
    else if reqs[0].EncodeRequest? then Some(reqs[0])
    else FirstEncode(reqs[1..])
  }

  predicate HasDecode(reqs: seq<Request>)
  {
    exists i :: 0 <= i < |reqs| && reqs[i].DecodeRequest?
  }

  /** The log of an encoder initialised once, at the given dimensions, and only ever asked to
      encode or to dispose after that. */
  ghost predicate IsEncoderLog(log: seq<Call>, width: uint32, height: uint32)
  {
    |log| >= 1 && log[0] == InitEncoderCall(width, height) &&
    forall i :: 1 <= i < |log| ==> log[i].EncodeCall? || log[i].DisposeCall?
  }

  /** The log of a decoder initialised once and only ever asked to decode or to dispose after that. */
  ghost predicate IsDecoderLog(log: seq<Call>)
  {
    |log| >= 1 && log[0] == InitDecoderCall &&
    forall i :: 1 <= i < |log| ==> log[i].DecodeCall? || log[i].DisposeCall?
  }

  // ---------------------------------------------------------------------------------------
  // Each handle is initialised at most once

  lemma EncoderLogStep(engine: Engine, converter: PixelConverter, s: Session, req: Request, width: uint32, height: uint32)
    requires s.encoder.Some? && IsEncoderLog(s.encoder.value, width, height)
    ensures var r := Step(engine, converter, s, req);
            r.encoder.Some? && IsEncoderLog(r.encoder.value, width, height)
  {
  }

  lemma {:induction false} EncoderLogKept(engine: Engine, converter: PixelConverter, s: Session, reqs: seq<Request>,
                                          width: uint32, height: uint32)
    requires s.encoder.Some? && IsEncoderLog(s.encoder.value, width, height)
    ensures var r := Run(engine, converter, s, reqs);
            r.encoder.Some? && IsEncoderLog(r.encoder.value, width, height)
    decreases |reqs|
  {
    if reqs != [] {
      EncoderLogStep(engine, converter, s, reqs[0], width, height);
      EncoderLogKept(engine, converter, Step(engine, converter, s, reqs[0]), reqs[1..], width, height);
    }
  }

  /** From a session without an encoder, an encoder exists after the requests exactly when one of
      them was an encode; it was initialised once, with the first encode's dimensions, whatever
      the dimensions of later encodes, and was asked for nothing but Encode and Dispose since. */
  lemma {:induction false} EncoderInitialisedOnce(engine: Engine, converter: PixelConverter, s: Session, reqs: seq<Request>)
    requires s.encoder.None?
    ensures var r := Run(engine, converter, s, reqs);
            (r.encoder.Some? <==> FirstEncode(reqs).Some?) &&
            (FirstEncode(reqs).Some? ==>
               IsEncoderLog(r.encoder.value, ToUInt32(FirstEncode(reqs).value.width), ToUInt32(FirstEncode(reqs).value.height)))
    decreases |reqs|
  {
    if reqs != [] {
      var s' := Step(engine, converter, s, reqs[0]);
      if reqs[0].EncodeRequest? {
        var a := reqs[0];
        assert s'.encoder.value[0] == InitEncoderCall(ToUInt32(a.width), ToUInt32(a.height));
        EncoderLogKept(engine, converter, s', reqs[1..], ToUInt32(a.width), ToUInt32(a.height));
      } else {
        assert s'.encoder.None?;
        EncoderInitialisedOnce(engine, converter, s', reqs[1..]);
      }
    }
  }

  /** The encoder handle is stored before InitialiseEncoder runs, so an initialisation that throws
      leaves it in place: the next encode does not initialise again, and reaches the engine's
      Encode as soon as its frame converts. The pending key-frame request is kept meanwhile. */
  lemma FailedEncoderInitNotRetried(engine: Engine, converter: PixelConverter, s: Session, a: Request, b: Request)
    requires a.EncodeRequest? && b.EncodeRequest?
    requires EncoderInitFails(engine, s, a.width, a.height)
    ensures var o1 := EncodeStep(engine, converter, s, a);
            var o2 := EncodeStep(engine, converter, o1.session, b);
            o1.result.Failure? && o1.session.forceKeyFrame == s.forceKeyFrame &&
            o1.session.encoder == Some([InitEncoderCall(ToUInt32(a.width), ToUInt32(a.height))]) &&
            (ReachesEncode(engine, converter, o1.session, b.width, b.height, b.sample, b.pixelFormat) <==>
               converter.toI420(b.width, b.height, b.sample, b.pixelFormat).Success?) &&
            o2.session.encoder.value[..1] == [InitEncoderCall(ToUInt32(a.width), ToUInt32(a.height))] &&
            forall i :: 1 <= i < |o2.session.encoder.value| ==> o2.session.encoder.value[i].EncodeCall?
  {
  }

  /** Likewise the decoder handle survives an InitialiseDecoder that throws: the next decode is
      not initialised again but goes straight to the engine's Decode on that instance, and fails
      only if that Decode throws. */
  lemma FailedDecoderInitNotRetried(engine: Engine, converter: PixelConverter, s: Session,
                                    first: Bytes, next: Bytes, pixelFormat: PixelFormat)
    requires DecoderInitFails(engine, s)
    ensures var o1 := DecodeVideoStep(engine, converter, s, first, pixelFormat);
            var o2 := DecodeVideoStep(engine, converter, o1.session, next, pixelFormat);
            var answer := engine.decode([InitDecoderCall], next, |next|);
            o1.result == Failure(engine.initDecoder([]).error) && o1.session.decoder == Some([InitDecoderCall]) &&
            o2.session.decoder == Some([InitDecoderCall, DecodeCall(next, |next|)]) &&
            o2.result == DecodedResult(converter, answer) &&
            (o2.result.Failure? <==> answer.Failure?)
  {
    var o1 := DecodeVideoStep(engine, converter, s, first, pixelFormat);
    assert DecoderLogBefore(o1.session) == [InitDecoderCall];
    assert [InitDecoderCall] + [DecodeCall(next, |next|)] == [InitDecoderCall, DecodeCall(next, |next|)];
  }

  lemma DecoderLogStep(engine: Engine, converter: PixelConverter, s: Session, req: Request)
    requires s.decoder.Some? && IsDecoderLog(s.decoder.value)
    ensures var r := Step(engine, converter, s, req);
            r.decoder.Some? && IsDecoderLog(r.decoder.value)
  {
  }

  lemma {:induction false} DecoderLogKept(engine: Engine, converter: PixelConverter, s: Session, reqs: seq<Request>)
    requires s.decoder.Some? && IsDecoderLog(s.decoder.value)
    ensures var r := Run(engine, converter, s, reqs);
            r.decoder.Some? && IsDecoderLog(r.decoder.value)
    decreases |reqs|
  {
    if reqs != [] {
      DecoderLogStep(engine, converter, s, reqs[0]);
      DecoderLogKept(engine, converter, Step(engine, converter, s, reqs[0]), reqs[1..]);
    }
  }

  /** From a session without a decoder, a decoder exists after the requests exactly when one of
      them was a decode, and it was initialised once and asked for nothing but Decode and Dispose since. */
  lemma {:induction false} DecoderInitialisedOnce(engine: Engine, converter: PixelConverter, s: Session, reqs: seq<Request>)
    requires s.decoder.None?
    ensures var r := Run(engine, converter, s, reqs);
            (r.decoder.Some? <==> HasDecode(reqs)) &&
            (HasDecode(reqs) ==> IsDecoderLog(r.decoder.value))
    decreases |reqs|
  {
    if reqs != [] {
      var s' := Step(engine, converter, s, reqs[0]);
      if reqs[0].DecodeRequest? {
        assert s'.decoder.value[0] == InitDecoderCall;
        DecoderLogKept(engine, converter, s', reqs[1..]);
      } else {
        assert s'.decoder.None?;
        DecoderInitialisedOnce(engine, converter, s', reqs[1..]);
        assert HasDecode(reqs) <==> HasDecode(reqs[1..]) by {
          if HasDecode(reqs[1..]) {
            var i :| 0 <= i < |reqs[1..]| && reqs[1..][i].DecodeRequest?;
            assert reqs[i + 1].DecodeRequest?;
          }
          if HasDecode(reqs) {
            var i :| 0 <= i < |reqs| && reqs[i].DecodeRequest?;
            assert reqs[1..][i - 1].DecodeRequest?;
          }
        }
      }
    } else {
      assert !HasDecode(reqs);
    }
  }

  // ---------------------------------------------------------------------------------------
  // The key-frame flag

  /** The forceKeyFrame argument of each Encode call in a log, in order. */
  function EncodeFlags(log: seq<Call>): seq<bool>
  {
    if log == [] then []
    else (if log[0].EncodeCall? then [log[0].forceKeyFrame] else []) + EncodeFlags(log[1..])
  }

  lemma {:induction false} EncodeFlagsAppend(a: seq<Call>, b: seq<Call>)
    ensures EncodeFlags(a + b) == EncodeFlags(a) + EncodeFlags(b)
    decreases |a|
  {
    if a != [] {
      assert (a + b)[1..] == a[1..] + b;
      EncodeFlagsAppend(a[1..], b);
    } else {
      assert a + b == b;
    }
  }

  /** What one encode adds to the encoder's list of key-frame arguments: the pending flag, if the
      call reached the engine, and nothing otherwise. */
  lemma EncodeAddsFlag(engine: Engine, converter: PixelConverter, s: Session, a: Request)
    requires a.EncodeRequest?
    ensures var o := EncodeStep(engine, converter, s, a);
            EncodeFlags(o.session.encoder.value) ==
              EncodeFlags(EncoderLogBefore(s, a.width, a.height)) +
              (if ReachesEncode(engine, converter, s, a.width, a.height, a.sample, a.pixelFormat) then [s.forceKeyFrame] else [])
  {
    var log := EncoderLogBefore(s, a.width, a.height);
    if ReachesEncode(engine, converter, s, a.width, a.height, a.sample, a.pixelFormat) {
      var c := EncodeCall(converter.toI420(a.width, a.height, a.sample, a.pixelFormat).value, s.forceKeyFrame);
      EncodeFlagsAppend(log, [c]);
      assert EncodeFlags([c]) == [s.forceKeyFrame] + EncodeFlags([]);
    }
  }

  function Repeat(req: Request, n: nat): (r: seq<Request>)
    ensures |r| == n && forall i :: 0 <= i < n ==> r[i] == req
  {
    if n == 0 then [] else [req] + Repeat(req, n - 1)
  }

  /** Requesting a key frame n >= 1 times in a row has the effect of requesting it once. */
  lemma {:induction false} KeyFrameRequestIdempotent(engine: Engine, converter: PixelConverter, s: Session, n: nat)
    requires n >= 1
    ensures Run(engine, converter, s, Repeat(ForceKeyFrameRequest, n)) == ForceKeyFrameStep(s)
    decreases n
  {
    var reqs := Repeat(ForceKeyFrameRequest, n);
    assert reqs[1..] == Repeat(ForceKeyFrameRequest, n - 1);
    if n == 1 {
      assert Run(engine, converter, ForceKeyFrameStep(s), []) == ForceKeyFrameStep(s);
    } else {
      KeyFrameRequestIdempotent(engine, converter, ForceKeyFrameStep(s), n - 1);
      assert ForceKeyFrameStep(ForceKeyFrameStep(s)) == ForceKeyFrameStep(s);
    }
  }

  /** After a key-frame request, the next encode that succeeds is asked for a key frame and the
      one after it is not: the engine sees `true`, then `false`, and no request is left pending. */
  lemma KeyFrameForcedExactlyOnce(engine: Engine, converter: PixelConverter, s: Session, a: Request, b: Request)
    requires a.EncodeRequest? && b.EncodeRequest?
    requires EncodeStep(engine, converter, ForceKeyFrameStep(s), a).result.Success?
    requires ReachesEncode(engine, converter, EncodeStep(engine, converter, ForceKeyFrameStep(s), a).session,
                           b.width, b.height, b.sample, b.pixelFormat)
    ensures var o1 := EncodeStep(engine, converter, ForceKeyFrameStep(s), a);
            var o2 := EncodeStep(engine, converter, o1.session, b);
            EncodeFlags(o2.session.encoder.value) == EncodeFlags(EncoderLogBefore(s, a.width, a.height)) + [true, false] &&
            !o2.session.forceKeyFrame
  {
    var s1 := ForceKeyFrameStep(s);
    var o1 := EncodeStep(engine, converter, s1, a);
    EncodeAddsFlag(engine, converter, s1, a);
    EncodeAddsFlag(engine, converter, o1.session, b);
    assert EncoderLogBefore(s1, a.width, a.height) == EncoderLogBefore(s, a.width, a.height);
    assert EncoderLogBefore(o1.session, b.width, b.height) == o1.session.encoder.value;
  }

  /** An encode that throws leaves the request pending: the next encode that reaches the engine
      is still asked for a key frame. */
  lemma KeyFrameSurvivesFailedEncode(engine: Engine, converter: PixelConverter, s: Session, a: Request, b: Request)
    requires a.EncodeRequest? && b.EncodeRequest?
    requires s.forceKeyFrame
    requires EncodeStep(engine, converter, s, a).result.Failure?
    requires ReachesEncode(engine, converter, EncodeStep(engine, converter, s, a).session, b.width, b.height, b.sample, b.pixelFormat)
    ensures var o1 := EncodeStep(engine, converter, s, a);
            var o2 := EncodeStep(engine, converter, o1.session, b);
            o1.session.forceKeyFrame &&
            EncodeFlags(o2.session.encoder.value) == EncodeFlags(o1.session.encoder.value) + [true]
  {
    var o1 := EncodeStep(engine, converter, s, a);
    EncodeAddsFlag(engine, converter, o1.session, b);
    assert EncoderLogBefore(o1.session, b.width, b.height) == o1.session.encoder.value;
  }

  /** The key-frame arguments a handle has been given; none for a missing handle. */
  function FlagsOf(h: Option<seq<Call>>): seq<bool>
  {
    if h.Some? then EncodeFlags(h.value) else []
  }

  /** `flags` is `before` followed by `false` entries only. */
  ghost predicate ExtendsWithFalse(before: seq<bool>, flags: seq<bool>)
  {
    |before| <= |flags| && flags[..|before|] == before &&
    forall i :: |before| <= i < |flags| ==> !flags[i]
  }

  lemma ExtendsWithFalseTransitive(a: seq<bool>, b: seq<bool>, c: seq<bool>)
    requires ExtendsWithFalse(a, b) && ExtendsWithFalse(b, c)
    ensures ExtendsWithFalse(a, c)
  {
  }

  /** Without a key-frame request, no further key frame is forced: across any sequence of
      encodes, decodes and disposals on a session with no request pending, everything the
      engine is passed from then on is `false`, and no request becomes pending. This holds in
      particular once a request has been consumed (see KeyFrameForcedExactlyOnce). */
  lemma {:induction false} NoRequestNoKeyFrame(engine: Engine, converter: PixelConverter, s: Session, reqs: seq<Request>)
    requires !s.forceKeyFrame
    requires forall i :: 0 <= i < |reqs| ==> !reqs[i].ForceKeyFrameRequest?
    ensures var r := Run(engine, converter, s, reqs);
            !r.forceKeyFrame && ExtendsWithFalse(FlagsOf(s.encoder), FlagsOf(r.encoder))
    decreases |reqs|
  {
    var before := FlagsOf(s.encoder);
    if reqs == [] {
      assert before[..|before|] == before;
    } else {
      var s' := Step(engine, converter, s, reqs[0]);
      if reqs[0].EncodeRequest? {
        EncodeAddsFlag(engine, converter, s, reqs[0]);
        var log := EncoderLogBefore(s, reqs[0].width, reqs[0].height);
        if s.encoder.None? {
          assert EncodeFlags(log) == [] + EncodeFlags([]);
        }
        assert EncodeFlags(log) == before;
        assert (before + [false])[..|before|] == before;
      } else if reqs[0].DisposeRequest? && s.encoder.Some? {
        EncodeFlagsAppend(s.encoder.value, [DisposeCall]);
        assert EncodeFlags([DisposeCall]) == [] + EncodeFlags([]);
        assert FlagsOf(s'.encoder) == before;
      } else {
        assert FlagsOf(s'.encoder) == before;
      }
      assert ExtendsWithFalse(before, FlagsOf(s'.encoder));
      NoRequestNoKeyFrame(engine, converter, s', reqs[1..]);
      ExtendsWithFalseTransitive(before, FlagsOf(s'.encoder), FlagsOf(Run(engine, converter, s, reqs).encoder));
    }
  }

  // ---------------------------------------------------------------------------------------
  // Decoding

  /** A packet the engine cannot decode (a null answer) yields no samples and keeps the decoder:
      the next packet goes to the same decoder, which is not initialised again, and its answer is
      handed back as usual; that call fails only if the engine's Decode throws. */
  lemma DecoderSurvivesBadPacket(engine: Engine, converter: PixelConverter, s: Session,
                                 bad: Bytes, next: Bytes, pixelFormat: PixelFormat)
    requires !DecoderInitFails(engine, s)
    requires engine.decode(DecoderLogBefore(s), bad, |bad|) == Success(None)
    ensures var o1 := DecodeVideoStep(engine, converter, s, bad, pixelFormat);
            var o2 := DecodeVideoStep(engine, converter, o1.session, next, pixelFormat);
            var answer := engine.decode(o1.session.decoder.value, next, |next|);
            o1.result == Success([]) &&
            o1.session.decoder == Some(DecoderLogBefore(s) + [DecodeCall(bad, |bad|)]) &&
            o2.session.decoder == Some(o1.session.decoder.value + [DecodeCall(next, |next|)]) &&
            o2.result == DecodedResult(converter, answer) &&
            (o2.result.Failure? <==> answer.Failure?)
  {
  }

  /** The requested pixel format plays no part in decoding: samples are always BGR. */
  lemma DecodeIgnoresPixelFormat(engine: Engine, converter: PixelConverter, s: Session,
                                 frame: Bytes, f1: PixelFormat, f2: PixelFormat)
    ensures DecodeVideoStep(engine, converter, s, frame, f1) == DecodeVideoStep(engine, converter, s, frame, f2)
  {
  }

  // ---------------------------------------------------------------------------------------
  // The two directions are independent

  /** An encode and a decode commute: each sees the same answers, and the session ends the same,
      whichever runs first. */
  lemma EncodeDecodeCommute(engine: Engine, converter: PixelConverter, s: Session, a: Request, frame: Bytes, pixelFormat: PixelFormat)
    requires a.EncodeRequest?
    ensures var e1 := EncodeStep(engine, converter, s, a);
            var d2 := DecodeVideoStep(engine, converter, e1.session, frame, pixelFormat);
            var d1 := DecodeVideoStep(engine, converter, s, frame, pixelFormat);
            var e2 := EncodeStep(engine, converter, d1.session, a);
            e1.result == e2.result && d1.result == d2.result && d2.session == e2.session
  {
  }

  /** Disposing a session that never encoded or decoded changes nothing and cannot throw. */
  lemma DisposeFreshIsNoOp(engine: Engine, converter: PixelConverter)
    ensures DisposeStep(engine, FreshSession).result == Pass
    ensures Run(engine, converter, FreshSession, [DisposeRequest]) == FreshSession
  {
  }
}
