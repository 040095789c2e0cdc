/** The 16-bit PCM sample decoder of loadAudio: every byte of the file after
    the header, up to end of file, read two at a time as little-endian
    unsigned 16-bit words and reinterpreted as two's-complement int16
    samples.  The data chunk's declared size plays no part, so bytes of any
    chunk after it are decoded as well.  An unpaired trailing byte is
    dropped. */
module Pcm {

  type Byte = x: int | 0 <= x < 0x100
  type Uint16 = x: int | 0 <= x < 0x1_0000
  type Int16 = x: int | -0x8000 <= x < 0x8000

  /** binary.LittleEndian.Uint16 on a two-byte slice: the first byte is the
      low-order one. */
  function LittleEndianUint16(lo: Byte, hi: Byte): (u: Uint16)
    ensures u % 0x100 == lo && u / 0x100 == hi
  {
    lo + 0x100 * hi
  }

  /** binary.LittleEndian.PutUint16: the two bytes of u, low-order first. */
  function PutUint16(u: Uint16): (b: seq<Byte>)
    ensures |b| == 2 && LittleEndianUint16(b[0], b[1]) == u
  {
    [u % 0x100, u / 0x100]
  }

  /** Go's conversion int16(u) of a uint16: the same 16 bits read as two's
      complement, so the value agrees with u modulo 2^16 and is negative
      exactly when the top bit is set. */
  function Int16Of(u: Uint16): (s: Int16)
    ensures (u - s) % 0x1_0000 == 0
    ensures s < 0 <==> u >= 0x8000
  {
    if u >= 0x8000 then u - 0x1_0000 else u
  }

  /** Go's conversion uint16(s) of an int16: the inverse reinterpretation. */
  function Uint16Of(s: Int16): (u: Uint16)
    ensures (u - s) % 0x1_0000 == 0
  {
    if s < 0 then s + 0x1_0000 else s
  }

  /** The two reinterpretations are inverse bijections. */
  lemma ReinterpretRoundTrip(u: Uint16, s: Int16)
    ensures Uint16Of(Int16Of(u)) == u
    ensures Int16Of(Uint16Of(s)) == s
  {
  }

  /** One sample from its two bytes, low-order first: it agrees with
      lo + 256 * hi modulo 2^16 and is negative exactly when the high byte
      has its top bit set. */
  function SampleOf(lo: Byte, hi: Byte): (s: Int16)
    ensures (lo + 0x100 * hi - s) % 0x1_0000 == 0
    ensures s < 0 <==> hi >= 0x80
  {
    Int16Of(LittleEndianUint16(lo, hi))
  }

  /** The samples decoded from the bytes after the header: one per
      consecutive byte pair, in byte order. */
  function PcmSamples(data: seq<Byte>): (samples: seq<Int16>)
    ensures |samples| == |data| / 2
  {
    if |data| < 2 then []
    else [SampleOf(data[0], data[1])] + PcmSamples(data[2..])
  }

  /** Sample k is made of bytes 2k (low) and 2k+1 (high). */
  lemma {:induction false} PcmSampleAt(data: seq<Byte>, k: nat)
    requires k < |data| / 2
    ensures PcmSamples(data)[k] == SampleOf(data[2 * k], data[2 * k + 1])
  {
    if k > 0 {
      PcmSampleAt(data[2..], k - 1);
    }
  }

  /** A trailing unpaired byte does not change the decoded samples. */
  lemma {:induction false} TrailingByteDropped(data: seq<Byte>, b: Byte)
    requires |data| % 2 == 0
    ensures PcmSamples(data + [b]) == PcmSamples(data)
  {
    if |data| >= 2 {
      assert (data + [b])[2..] == data[2..] + [b];
      TrailingByteDropped(data[2..], b);
    }
  }

  /** The inverse of decoding: every sample as two little-endian bytes. */
  function EncodePcm(samples: seq<Int16>): (data: seq<Byte>)
    ensures |data| == 2 * |samples|
  {
    if |samples| == 0 then []
    else PutUint16(Uint16Of(samples[0])) + EncodePcm(samples[1..])
  }

  /** Decoding what was encoded gives the samples back. */
  lemma {:induction false} DecodeEncode(samples: seq<Int16>)
    ensures PcmSamples(EncodePcm(samples)) == samples
  {
    if |samples| > 0 {
      var data := EncodePcm(samples);
      DecodeEncode(samples[1..]);
      assert data[2..] == EncodePcm(samples[1..]);
      ReinterpretRoundTrip(0, samples[0]);
      assert [samples[0]] + samples[1..] == samples;
    }
  }

  /** Encoding what was decoded gives back every byte that formed a pair. */
  lemma {:induction false} EncodeDecode(data: seq<Byte>)
    ensures EncodePcm(PcmSamples(data)) == data[..|data| / 2 * 2]
  {
    if |data| >= 2 {
      var samples := PcmSamples(data);
      EncodeDecode(data[2..]);
      assert samples[1..] == PcmSamples(data[2..]);
      ReinterpretRoundTrip(LittleEndianUint16(data[0], data[1]), 0);
      assert PutUint16(Uint16Of(samples[0])) == data[..2];
      assert data[..2] + data[2..][..|data[2..]| / 2 * 2] == data[..|data| / 2 * 2];
    }
  }

  /** The decode loop of loadAudio: steps through the bytes two at a time
      while at least two remain, appending one sample per step. */
  method DecodeData(data: seq<Byte>) returns (audio: seq<Int16>)
    ensures |audio| == |data| / 2
    ensures forall k :: 0 <= k < |audio| ==> audio[k] == SampleOf(data[2 * k], data[2 * k + 1])
    ensures audio == PcmSamples(data)
  {
    audio := [];
    var i := 0;
    while i < |data| - 1
      invariant 0 <= i <= |data| && i % 2 == 0
      invariant |audio| == i / 2
      invariant forall k :: 0 <= k < |audio| ==> audio[k] == SampleOf(data[2 * k], data[2 * k + 1])
    {
      var sample := LittleEndianUint16(data[i], data[i + 1]);
      audio := audio + [Int16Of(sample)];
      i := i + 2;
    }
    var spec := PcmSamples(data);
    forall k | 0 <= k < |audio| ensures audio[k] == spec[k] {
      PcmSampleAt(data, k);
    }
  }

  /** The bytes 00 00, 01 00, FF FF decode to the samples 0, 1 and -1. */
  lemma DecodeExample()
    ensures PcmSamples([0x00, 0x00, 0x01, 0x00, 0xFF, 0xFF]) == [0, 1, -1]
  {
    var data: seq<Byte> := [0x00, 0x00, 0x01, 0x00, 0xFF, 0xFF];
    assert data[2..][2..] == [0xFF, 0xFF];
  }
}
