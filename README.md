# VideoEncoder session model

A Dafny model of the `VideoEncoder` class of SIPSorceryMedia.Encoders. The class is a session
object in front of the VP8 codec library. It holds three pieces of state:

- an encoder handle, created on the first `EncodeVideo` call;
- a decoder handle, created on the first `DecodeVideo` call;
- a pending key-frame flag, set by `ForceKeyFrame` and consumed by the next successful encode.

## Structure

- `wrappers.dfy`, module `Wrappers`: `Option` (for C# null), `Result` (a value or a thrown
  exception) and `Outcome`.
- `codecs.dfy`, module `Codecs`: the collaborators the session uses but does not contain.
  - The C# integer widths (`int32`, `uint32`, `byte`) and the two unchecked casts the class
    performs, `(uint)width` and `(int)width`.
  - `Vp8Codec`: a class for one instance of the VP8 library. It records every call made to it
    in `log`. Its answers come from an `Engine`: a datatype of total functions from (the
    instance's earlier calls, the call's arguments) to a result. Each of the library's calls
    (`InitialiseEncoder`, `Encode`, `InitialiseDecoder`, `Decode`, `Dispose`) may throw, and
    `Decode` may also answer null. Three things are assumed of the library and the converter
    beyond that, each listed under "## Left out": the library's constructor `new Vp8Codec()`
    does not throw, the buffers they hand back are never null, and the converter's `I420toBGR`
    does not throw. Within those assumptions the properties hold for any library behaviour.
  - `PixelConverter`: the two colour conversions, `ToI420` and `I420toBGR`, as uninterpreted
    functions.
- `video_encoder.dfy`, module `Encoders`: the session.
  - The abstract state `Session`: the log of each handle that exists, plus the flag.
  - One pure step function per operation: `ForceKeyFrameStep`, `EncodeVideoStep`,
    `DecodeVideoStep`, `DisposeStep`.
  - The class `VideoEncoder`, with fields `encoder`, `decoder` and `forceKeyFrame`. Each of its
    methods is proved to change `Abstract()` exactly as its step function does, and to return
    the step function's result. `DecodeVideo` builds its output in a loop over the decoded
    frames, like the source.
- `session_properties.dfy`, module `SessionProperties`: properties of several calls in a row,
  stated over request sequences (`Run`) or over chained step functions.

The engine and the converter are passed to the `VideoEncoder` constructor. In the source they
are a library constructor (`new Vp8Codec()`) and a static class. Exceptions are modelled as
`Failure` results:

- `InitialiseEncoder`, `InitialiseDecoder` and `ToI420` may throw.
- The engine's `Encode`, `Decode` and `Dispose` may throw.
- The engine's `Decode` answers null (`None`) for a packet it cannot decode.

The handle is stored before it is initialised: src/VideoEncoder.cs:55 comes before line 56, and
line 77 before line 78. So a failed initialisation is never retried, and the next call uses that
same handle without initialising it. The next decode goes straight to `Decode`. The next encode
first converts its frame (line 59) and reaches `Encode` only if that conversion succeeds. See
`FailedEncoderInitNotRetried` and `FailedDecoderInitNotRetried`. The encoder is also initialised (lines 53-57) before the frame is
converted (line 59), so a conversion that throws still leaves an initialised encoder.

## Model

| member | source | states |
|---|---|---|
| `Encoders.VideoEncoder.constructor` | src/VideoEncoder.cs:34-44 | a new session has no encoder, no decoder and no pending key frame |
| `Encoders.VideoEncoder.ForceKeyFrame` | src/VideoEncoder.cs:46 | sets the flag and changes nothing else: the handles stay the same objects with the same logs |
| `Encoders.ForceKeyFrameStep` | src/VideoEncoder.cs:46 | after a request the flag is set, whatever it was before; neither handle changes |
| `Encoders.VideoEncoder.IsSupported` | src/VideoEncoder.cs:47 | a codec is supported exactly when it is VP8, which agrees with the initial contents `[VP8]` of the static `SupportedCodecs` list (lines 29-32) |
| `Encoders.VideoEncoder.EncodeVideo` | src/VideoEncoder.cs:49-69 | behaves as `EncodeVideoStep` on the abstract state; the decoder object is untouched; an existing encoder object is kept; a missing one is replaced by a fresh object |
| `Encoders.EncodeVideoStep` | src/VideoEncoder.cs:53-67 | an encoder exists afterwards; a new one is first initialised with the call's dimensions cast to unsigned, and an existing one is never initialised again; the log gains one Encode call exactly when initialisation and conversion did not throw; that call carries the ToI420 buffer and the flag as it was on entry; the engine's answer is returned unchanged; an initialisation or conversion exception is propagated; the flag is cleared exactly when the call returns normally; the decoder is untouched |
| `Encoders.VideoEncoder.DecodeVideo` | src/VideoEncoder.cs:71-96 | behaves as `DecodeVideoStep` on the abstract state, building the samples in a loop over the decoded frames; the encoder object is untouched; an existing decoder object is kept |
| `Encoders.DecodeVideoStep` | src/VideoEncoder.cs:75-94 | a decoder exists afterwards; it is initialised only if it is new; the call fails exactly when that initialisation throws or the engine's Decode throws, and the decoder is kept either way; unless initialisation threw, the packet and its length go to the engine's Decode and its answer is handed back as `DecodedResult` describes; the encoder and the flag are untouched |
| `Encoders.DecodedResult` | src/VideoEncoder.cs:81-93 | an exception from Decode propagates with the same error; a null answer gives an empty result; any other answer gives one sample per decoded frame, in order, each carrying the engine-reported width and height and the BGR conversion of its frame |
| `Encoders.DecodedSamples` | src/VideoEncoder.cs:89-93 | exactly one sample per frame, the i-th made from the i-th frame, at the given dimensions, converted with I420toBGR |
| `Encoders.VideoEncoder.Dispose` | src/VideoEncoder.cs:98-102 | behaves as `DisposeStep` on the abstract state and returns its outcome; modifies only the two handles, so the flag and the handle fields are untouched |
| `Encoders.DisposeStep` | src/VideoEncoder.cs:98-102 | an existing encoder gets one Dispose call; if that call throws, the exception propagates and the decoder gets no call; otherwise an existing decoder gets one Dispose call and its exception, if any, propagates; a missing handle stays missing; the flag is unchanged; on a session with no handle it changes nothing and does not throw |
| `Encoders.DisposeHandle` | src/VideoEncoder.cs:100-101 | the null-conditional `?.Dispose()`: a missing handle stays missing, and an existing one gains exactly one Dispose call |
| `Codecs.ToUInt32` | src/VideoEncoder.cs:56 | the `(uint)` cast keeps non-negative values and adds 2^32 to negative ones |
| `Codecs.ToInt32` | src/VideoEncoder.cs:91 | the `(int)` cast is the inverse of the `(uint)` cast, and it keeps values below 2^31 |
| `SessionProperties.EncoderInitialisedOnce` | src/VideoEncoder.cs:53-57 | for any sequence of requests from a session without an encoder: the encoder exists afterwards iff some request was an encode; it was initialised once, first, with the first encode's dimensions whatever the later ones; after that it only saw Encode and Dispose calls |
| `SessionProperties.DecoderInitialisedOnce` | src/VideoEncoder.cs:75-79 | for any sequence of requests from a session without a decoder: the decoder exists afterwards iff some request was a decode; it was initialised once, first; after that it only saw Decode and Dispose calls |
| `SessionProperties.FailedEncoderInitNotRetried` | src/VideoEncoder.cs:53-57 | when InitialiseEncoder throws, the call fails but keeps the new handle and the pending flag; the next encode does not initialise again, and reaches the engine exactly when its frame converts |
| `SessionProperties.FailedDecoderInitNotRetried` | src/VideoEncoder.cs:75-79 | when InitialiseDecoder throws, the call fails with that error but keeps the handle; the next decode is not initialised again, goes to the engine's Decode on that handle, and fails exactly when that Decode throws |
| `SessionProperties.EncodeAddsFlag` | src/VideoEncoder.cs:59-60 | one encode adds the entry value of the flag to the engine's list of key-frame arguments if the call reached the engine, and adds nothing otherwise |
| `SessionProperties.KeyFrameRequestIdempotent` | src/VideoEncoder.cs:46 | any number n >= 1 of key-frame requests in a row leave the session as one request does |
| `SessionProperties.KeyFrameForcedExactlyOnce` | src/VideoEncoder.cs:60-65 | request, then a successful encode, then an encode that reaches the engine: the engine is passed `true` and then `false`, and no request is left pending |
| `SessionProperties.KeyFrameSurvivesFailedEncode` | src/VideoEncoder.cs:60-65 | an encode that throws while a request is pending leaves it pending, so the next encode to reach the engine is passed `true` |
| `SessionProperties.NoRequestNoKeyFrame` | src/VideoEncoder.cs:60-65 | from any session with no request pending (including one that already consumed a request), across any sequence of encodes, decodes and disposals, every key-frame argument added to the engine's list is `false`, the earlier ones are kept, and no request becomes pending |
| `SessionProperties.DecoderSurvivesBadPacket` | src/VideoEncoder.cs:81-86 | a packet the engine answers null for gives an empty result and keeps the decoder; the next packet goes to the same decoder without a new initialisation; its answer is handed back as usual, and that call fails exactly when the engine's Decode throws |
| `SessionProperties.DecodeIgnoresPixelFormat` | src/VideoEncoder.cs:89-92 | the requested pixel format has no effect on decoding: output is always BGR |
| `SessionProperties.EncodeDecodeCommute` | src/VideoEncoder.cs:49-96 | an encode and a decode give the same results and the same final session in either order: the two directions share no state |
| `SessionProperties.DisposeFreshIsNoOp` | src/VideoEncoder.cs:98-102 | disposing a newly constructed session changes nothing and does not throw |

## Left out

- Locks (`_encoderLock`, `_decoderLock`): each method is one atomic step. Concurrency is not
  modelled. `EncodeDecodeCommute` states that the two directions are independent.
  `ForceKeyFrame` (line 46) takes no lock, and `EncodeVideo` reads the flag twice (lines 60 and
  62). So a request made from another thread between those two reads would be cleared without
  ever reaching the engine. The atomic-step model cannot show this, and the key-frame lemmas
  hold only for calls made one after another.
- Deferred execution of `DecodeVideo`. In C# it is an iterator, so nothing (not even the
  decoder's creation) happens until the caller enumerates the result. The model runs the whole
  call when it is made and returns a `seq`, which stands for exactly one complete enumeration.
  An enumeration abandoned part-way is not modelled. Neither is a second enumeration of the same
  result, which in C# runs the body again: one more engine `Decode` and one more log entry.
- The VP8 library itself. It is represented only by its call log and the arbitrary `Engine`
  functions. So the encode-then-decode round trip (equal dimensions) is not stated: it depends on
  the library, which is not part of this model.
- The arithmetic of the pixel conversions: `ToI420` and `I420toBGR` are uninterpreted. An
  exception thrown by `I420toBGR` in the middle of a decode is not modelled; the model treats it
  as total.
- The `codec` arguments of `EncodeVideo` and `DecodeVideo`: the source ignores them, and so does
  the model.
- Null arguments: `frame.Length` on a null frame throws, and a null `sample` is passed on to the
  converter. The model's byte sequences cannot be null.
- EncodeVideoStep: the `byte[]` results of `ToI420` (line 59) and of the library's `Encode`
  (lines 60, 67) are `Bytes` in the model, which cannot be null. In the source a null from
  `ToI420` would be passed on to `Encode`, and a null from `Encode` returned to the caller.
- EncodeVideoStep, DecodeVideoStep: `new Vp8Codec()` (lines 55 and 77) is assumed not to throw.
  In the source a throwing constructor would leave the field null, so the next call would try to
  create and initialise a handle again. The model's handle always exists after the first call.
- The `SupportedCodecs` list (lines 29-32) is `readonly` but still mutable. `IsSupported` never
  reads it. The model keeps the list as initialised.
- Logging (the logger field, and the warning when decoding fails): diagnostics only.
- Use after `Dispose`: the handles stay assigned, so a later call reaches a disposed engine. How
  the engine answers then is up to the `Engine` functions, which can see the Dispose call in
  the log.
