/** Sizes, seek times and headers of transcoded tracks. */
module Transcode {
  import opened Wrappers
  import opened Arithmetic
  import opened BigEndian

  const U32_MAX: nat := 0xFFFF_FFFF
  const U64_MAX: nat := 0xFFFF_FFFF_FFFF_FFFF

  const RATE: nat := 22254
  const HEADER_BYTES: nat := 54

  // ---- Classic AIFF: 8-bit mono, so one byte a sample ----

  /** `classic_aiff_byte_to_time_ms`. */
  function AiffByteToTimeMs(byteOffset: nat): nat {
    if byteOffset <= HEADER_BYTES then 0 else Min((byteOffset - HEADER_BYTES) * 1000 / RATE, U32_MAX)
  }

  /** `classic_aiff_sample_count_micros`: to the nearest sample. */
  function AiffSamplesOfMicros(micros: nat): nat {
    Min((Min(micros * RATE, U64_MAX) + 500_000) / 1_000_000, U32_MAX)
  }

  /** The sample count inside `classic_aiff_size`: rounded down. */
  function AiffSamplesOfMs(ms: nat): nat {
    ms * RATE / 1000
  }

  function AiffSizeFromSamples(samples: nat): nat {
    HEADER_BYTES + samples
  }

  /** Seeking to data byte d starts the encoder at a time that is at most 22 samples early when
      counted to the nearest sample, and at most 23 when rounded down; never late. */
  lemma {:induction false} AiffSeekIsClose(d: nat)
    requires d <= U32_MAX
    ensures var ms := AiffByteToTimeMs(HEADER_BYTES + d);
      && d - 22 <= AiffSamplesOfMicros(ms * 1000) <= d
      && d - 23 <= AiffSamplesOfMs(ms) <= d
    ensures AiffByteToTimeMs(Min(d, HEADER_BYTES)) == 0
  {
    var ms := d * 1000 / RATE;
    assert ms * RATE <= d * 1000 < ms * RATE + RATE;
    assert ms <= U32_MAX;
    assert AiffByteToTimeMs(HEADER_BYTES + d) == ms;
    var micros := ms * 1000;
    assert micros * RATE == ms * RATE * 1000;
    assert micros * RATE <= U64_MAX;
  }

  /** Both bounds are attained. */
  lemma {:induction false} AiffSeekBoundsAttained()
    ensures AiffSamplesOfMicros(AiffByteToTimeMs(HEADER_BYTES + 89) * 1000) == 89 - 22
    ensures AiffSamplesOfMs(AiffByteToTimeMs(HEADER_BYTES + 89)) == 89 - 23
  {
  }

  /** A second is 22254 samples, the rate the header announces. */
  lemma {:induction false} OneSecond()
    ensures AiffByteToTimeMs(54 + 22254) == 1000 && AiffSamplesOfMicros(1_000_000) == AiffSamplesOfMs(1000) == 22254
  {
  }

  // ---- The AIFF header ----

  /** Sums as u32: past 2^32 - 1 they wrap, or stop a build that checks. */
  function SsndSize(samples: nat): nat {
    (8 + samples) % U32
  }

  function FormSize(samples: nat): nat {
    (4 + 8 + 18 + 8 + SsndSize(samples)) % U32
  }

  function Ascii(s: string): (bytes: seq<byte>)
    requires forall i :: 0 <= i < |s| ==> s[i] as int < 128
    ensures |bytes| == |s|
  {
    seq(|s|, i requires 0 <= i < |s| => s[i] as int)
  }

  /** 22254 in 80-bit extended precision: exponent 16383 + 14, significand 22254 * 2^49. */
  const RATE_EXTENDED: seq<byte> := [0x40, 0x0D, 0xAD, 0xDC, 0, 0, 0, 0, 0, 0]

  function FormChunk(samples: nat): (c: seq<byte>)
    ensures |c| == 12
  {
    Ascii("FORM") + Be32(FormSize(samples)) + Ascii("AIFF")
  }

  /** One channel, so many frames of 8 bits, the rate. */
  function CommChunk(samples: nat): (c: seq<byte>)
    ensures |c| == 26
  {
    Ascii("COMM") + Be32(18) + Word(1) + Be32(samples) + Word(8) + RATE_EXTENDED
  }

  function SsndFront(samples: nat): (c: seq<byte>)
    ensures |c| == 16
  {
    Ascii("SSND") + Be32(SsndSize(samples)) + Be32(0) + Be32(0)
  }

  function AiffHeader(samples: nat): (h: seq<byte>)
    ensures |h| == HEADER_BYTES
  {
    FormChunk(samples) + CommChunk(samples) + SsndFront(samples)
  }

  /** Copy some bytes into the array behind what is already there. */
  method CopyAt(out: array<byte>, at: nat, bytes: seq<byte>) returns (next: nat)
    requires at + |bytes| <= out.Length
    modifies out
    ensures next == at + |bytes| && out[..next] == old(out[..at]) + bytes
  {
    for i := 0 to |bytes|
      invariant out[..at + i] == old(out[..at]) + bytes[..i]
    {
      out[at + i] := bytes[i];
    }
    next := at + |bytes|;
  }

  /** `classic_aiff_header`. */
  method ClassicAiffHeader(samples: nat) returns (out: array<byte>)
    requires samples <= U32_MAX
    ensures fresh(out) && out[..] == AiffHeader(samples)
  {
    hide FormChunk, CommChunk, SsndFront;
    out := new byte[HEADER_BYTES](_ => 0);
    var at := PutForm(out, 0, samples);
    at := PutComm(out, at, samples);
    at := PutSsnd(out, at, samples);
    assert out[..0] == [] && out[..at] == out[..];
    assert [] + FormChunk(samples) == FormChunk(samples);
  }

  method PutForm(out: array<byte>, start: nat, samples: nat) returns (at: nat)
    requires start + 12 <= out.Length
    modifies out
    ensures at == start + 12 && out[..at] == old(out[..start]) + FormChunk(samples)
  {
    hide Ascii, Be32, FormSize;
    at := CopyAt(out, start, Ascii("FORM"));
    at := CopyAt(out, at, Be32(FormSize(samples)));
    at := CopyAt(out, at, Ascii("AIFF"));
  }

  method PutComm(out: array<byte>, start: nat, samples: nat) returns (at: nat)
    requires start + 26 <= out.Length
    modifies out
    ensures at == start + 26 && out[..at] == old(out[..start]) + CommChunk(samples)
  {
    hide Ascii, Be32, Word;
    at := CopyAt(out, start, Ascii("COMM"));
    at := CopyAt(out, at, Be32(18));
    at := CopyAt(out, at, Word(1));
    at := CopyAt(out, at, Be32(samples));
    at := CopyAt(out, at, Word(8));
    at := CopyAt(out, at, RATE_EXTENDED);
  }

  method PutSsnd(out: array<byte>, start: nat, samples: nat) returns (at: nat)
    requires start + 16 <= out.Length
    modifies out
    ensures at == start + 16 && out[..at] == old(out[..start]) + SsndFront(samples)
  {
    hide Ascii, Be32, SsndSize;
    at := CopyAt(out, start, Ascii("SSND"));
    at := CopyAt(out, at, Be32(SsndSize(samples)));
    at := CopyAt(out, at, Be32(0));
    at := CopyAt(out, at, Be32(0));
  }

  /** Two to the n. */
  function TwoTo(n: nat): (p: nat)
    ensures p > 0
  {
    if n == 0 then 1 else 2 * TwoTo(n - 1)
  }

  /** An 80-bit extended number that is a positive integer below 2^32: 15 bits of exponent, biased by
      16383, then a significand whose first bit stands for one. */
  function ReadExtended(s: seq<byte>): Option<nat>
    requires |s| == 10
  {
    var e := s[0] as int * 256 + s[1] as int - 16383;
    if e < 0 || e > 31 || s[6..] != [0, 0, 0, 0] then None
    else
      var m, unit := ReadBe32(s[2..6]), TwoTo(31 - e);
      if m % unit == 0 then Some(m / unit) else None
  }

  /** What a player learns from the front of an AIFF file. */
  datatype Aiff = Aiff(channels: nat, frames: nat, bits: nat, rate: nat)

  /** A file of one COMM and one SSND chunk, in this order, whose sizes all agree with its length. */
  function ReadAiff(s: seq<byte>): Option<Aiff> {
    if |s| < 54 then None
    else if s[..4] != Ascii("FORM") || s[8..16] != Ascii("AIFFCOMM") || s[38..42] != Ascii("SSND") then None
    else
      var form, comm, frames, ssnd := ReadBe32(s[4..8]), ReadBe32(s[16..20]), ReadBe32(s[22..26]), ReadBe32(s[42..46]);
      var channels, bits := s[20] as int * 256 + s[21] as int, s[26] as int * 256 + s[27] as int;
      if form + 8 != |s| || comm != 18 || ssnd != |s| - 46 || s[46..54] != [0, 0, 0, 0, 0, 0, 0, 0] then None
      else if frames * channels * bits != 8 * (|s| - 54) then None
      else
        match ReadExtended(s[28..38])
        case None => None
        case Some(rate) => Some(Aiff(channels, frames, bits, rate))
  }

  lemma {:induction false} RateBack()
    ensures ReadExtended(RATE_EXTENDED) == Some(22254)
  {
    var s := RATE_EXTENDED;
    assert s[6..] == [0, 0, 0, 0] && s[2..6] == [0xAD, 0xDC, 0, 0];
    assert TwoTo(17) == 0x2_0000 by {
      assert TwoTo(4) == 16 && TwoTo(8) == 256 && TwoTo(12) == 4096 && TwoTo(16) == 0x1_0000;
    }
  }

  lemma {:induction false} FormFields(samples: nat)
    ensures var c := FormChunk(samples); c[..4] == Ascii("FORM") && c[4..8] == Be32(FormSize(samples)) && c[8..] == Ascii("AIFF")
  {
    hide Ascii, Be32;
  }

  lemma {:induction false} CommFields(samples: nat)
    ensures var c := CommChunk(samples);
      && c[..4] == Ascii("COMM") && c[4..8] == Be32(18) && c[8..10] == Word(1) && c[10..14] == Be32(samples)
      && c[14..16] == Word(8) && c[16..] == RATE_EXTENDED
  {
    hide Ascii, Be32, Word;
  }

  lemma {:induction false} SsndFields(samples: nat)
    ensures var c := SsndFront(samples); c[..4] == Ascii("SSND") && c[4..8] == Be32(SsndSize(samples)) && c[8..] == Be32(0) + Be32(0)
  {
    hide Ascii, Be32;
  }

  /** Where the fields are in a served file. */
  lemma {:induction false} HeaderFields(samples: nat, pcm: seq<byte>)
    ensures var s := AiffHeader(samples) + pcm;
      && s[..4] == Ascii("FORM") && s[8..16] == Ascii("AIFFCOMM") && s[38..42] == Ascii("SSND")
      && s[4..8] == Be32(FormSize(samples)) && s[16..20] == Be32(18) && s[22..26] == Be32(samples)
      && s[42..46] == Be32(SsndSize(samples)) && s[46..54] == Be32(0) + Be32(0)
      && s[20..22] == Word(1) && s[26..28] == Word(8) && s[28..38] == RATE_EXTENDED
  {
    hide FormChunk, CommChunk, SsndFront, Be32, Word, SsndSize, FormSize;
    var form, comm, ssnd := FormChunk(samples), CommChunk(samples), SsndFront(samples);
    FormFields(samples);
    CommFields(samples);
    SsndFields(samples);
    var s := form + comm + ssnd + pcm;
    assert Ascii("AIFF") + Ascii("COMM") == Ascii("AIFFCOMM");
    hide Ascii;
    assert s[..12] == form && s[12..38] == comm && s[38..54] == ssnd;
    assert s[8..16] == form[8..] + comm[..4];
    assert s[..4] == form[..4] && s[4..8] == form[4..8];
    assert s[16..20] == comm[4..8] && s[20..22] == comm[8..10] && s[22..26] == comm[10..14];
    assert s[26..28] == comm[14..16] && s[28..38] == comm[16..];
    assert s[38..42] == ssnd[..4] && s[42..46] == ssnd[4..8] && s[46..54] == ssnd[8..];
  }

  lemma {:induction false} ZeroLongs()
    ensures Be32(0) + Be32(0) == [0, 0, 0, 0, 0, 0, 0, 0]
  {
    Be32Bytes(0, 0);
  }

  lemma {:induction false} ShortFields(s: seq<byte>, at: nat, v: word)
    requires at + 2 <= |s| && s[at..at + 2] == Word(v)
    ensures s[at] as int * 256 + s[at + 1] as int == v
  {
    assert s[at] == s[at..at + 2][0] && s[at + 1] == s[at..at + 2][1];
  }

  /** A served file, header and samples, is consistent exactly up to 2^32 - 47 samples, and then says
      that it is mono, of 8 bits, at 22254 a second and as long as it is. */
  lemma {:induction false} AiffConsistentIff(samples: nat, pcm: seq<byte>)
    requires samples <= U32_MAX && |pcm| == samples
    ensures ReadAiff(AiffHeader(samples) + pcm) == if samples <= 0x1_0000_0000 - 47 then Some(Aiff(1, samples, 8, 22254)) else None
    ensures |AiffHeader(samples) + pcm| == AiffSizeFromSamples(samples)
  {
    hide Be32, AiffHeader, ReadBe32, Ascii, Word, ReadExtended, RATE_EXTENDED;
    HeaderFields(samples, pcm);
    Be32Back(FormSize(samples));
    Be32Back(18);
    Be32Back(samples);
    Be32Back(SsndSize(samples));
    ZeroLongs();
    RateBack();
    var s := AiffHeader(samples) + pcm;
    ShortFields(s, 20, 1);
    ShortFields(s, 26, 8);
  }

  // ---- MP3 at a constant bit rate ----

  /** `estimate_mp3_size`. */
  function Mp3Size(ms: nat, kbps: nat): nat {
    ms * kbps / 8
  }

  /** `bytes_to_time_ms`. */
  function Mp3TimeMs(byteOffset: nat, kbps: nat): nat {
    Min(Min(byteOffset * 8, U64_MAX) / (if kbps == 0 then 1 else kbps), U32_MAX)
  }

  /** Without overflow the time of a size is the start of its millisecond, less what the size
      rounded away. */
  lemma {:induction false} Mp3TimeOfSize(ms: nat, kbps: nat)
    requires ms <= U32_MAX && 0 < kbps <= U32_MAX
    ensures var lost := ms * kbps % 8;
      Mp3TimeMs(Mp3Size(ms, kbps), kbps) == (ms * kbps - lost) / kbps <= ms
  {
    var bits := ms * kbps;
    MulMonotone(ms, U32_MAX, kbps);
    MulMonotone(kbps, U32_MAX, U32_MAX);
    assert U32_MAX * kbps == kbps * U32_MAX;
    var lost := bits % 8;
    assert Mp3Size(ms, kbps) * 8 == bits - lost;
    DivAtMost(bits - lost, kbps, ms);
  }

  /** Going to a size and back is exact for every duration at bit rates divisible by 8, the three
      presets among them, and at no others. */
  lemma {:induction false} Mp3ExactIff(kbps: nat)
    requires kbps <= U32_MAX
    ensures (forall ms: nat :: ms <= U32_MAX ==> Mp3TimeMs(Mp3Size(ms, kbps), kbps) == ms) <==> kbps > 0 && kbps % 8 == 0
  {
    if kbps == 0 {
      assert Mp3TimeMs(Mp3Size(1, kbps), kbps) == 0;
    } else if kbps % 8 == 0 {
      forall ms: nat | ms <= U32_MAX
        ensures Mp3TimeMs(Mp3Size(ms, kbps), kbps) == ms
      {
        Mp3Exact(ms, kbps);
      }
    } else {
      Mp3TimeOfSize(1, kbps);
      assert Mp3TimeMs(Mp3Size(1, kbps), kbps) == 0;
    }
  }

  lemma {:induction false} Mp3Exact(ms: nat, kbps: nat)
    requires ms <= U32_MAX && 0 < kbps <= U32_MAX && kbps % 8 == 0
    ensures Mp3TimeMs(Mp3Size(ms, kbps), kbps) == ms
  {
    Mp3TimeOfSize(ms, kbps);
    var eighth := kbps / 8;
    assert ms * kbps == ms * eighth * 8;
    assert ms * kbps % 8 == 0;
    DivModUnique(kbps, ms, 0);
  }

  /** It loses at most a millisecond at every bit rate of at least 6, and at 4, and at no others. */
  lemma {:induction false} Mp3WithinOneIff(kbps: nat)
    requires kbps <= U32_MAX
    ensures (forall ms: nat :: ms <= U32_MAX ==> Mp3TimeMs(Mp3Size(ms, kbps), kbps) + 1 >= ms) <==> kbps == 4 || kbps >= 6
  {
    if kbps == 4 || kbps >= 6 {
      forall ms: nat | ms <= U32_MAX
        ensures Mp3TimeMs(Mp3Size(ms, kbps), kbps) + 1 >= ms
      {
        Mp3WithinOne(ms, kbps);
      }
    } else {
      var ms: nat := if kbps == 1 then 7 else if kbps == 3 then 5 else 3;
      assert Mp3TimeMs(Mp3Size(ms, kbps), kbps) + 1 < ms;
    }
  }

  lemma {:induction false} Mp3WithinOne(ms: nat, kbps: nat)
    requires ms <= U32_MAX && (kbps == 4 || 6 <= kbps <= U32_MAX)
    ensures Mp3TimeMs(Mp3Size(ms, kbps), kbps) + 1 >= ms
  {
    hide Mp3TimeMs, Mp3Size;
    Mp3TimeOfSize(ms, kbps);
    LostAtMost(ms, kbps, ms * kbps);
    if ms > 0 {
      OneLess(ms, kbps);
      AtLeast(ms * kbps - ms * kbps % 8, kbps, ms - 1);
    }
  }

  lemma {:induction false} LostAtMost(ms: nat, kbps: nat, bits: nat)
    requires bits == ms * kbps && (kbps == 4 || kbps >= 6)
    ensures bits % 8 <= kbps
  {
    if kbps == 6 {
      Product(ms, kbps, 6);
      MultiplesOf(3 * ms, bits);
    } else if kbps == 4 {
      Product(ms, kbps, 4);
      MultiplesOf(2 * ms, bits);
    } else {
      MultiplesOf(0, bits);
    }
  }

  lemma {:induction false} Product(ms: nat, kbps: nat, k: nat)
    requires kbps == k
    ensures ms * kbps == ms * k
  {
  }

  lemma {:induction false} MultiplesOf(k: nat, bits: nat)
    ensures bits % 8 <= 7
    ensures bits == 2 * k ==> bits % 8 <= 6
    ensures bits == 2 * k && k % 2 == 0 ==> bits % 8 <= 4
  {
  }

  lemma {:induction false} OneLess(a: int, b: int)
    ensures (a - 1) * b == a * b - b
  {
  }

  lemma {:induction false} AtLeast(a: int, l: int, b: int)
    requires l > 0 && a >= b * l
    ensures a / l >= b
  {
    var q := a / l;
    DivBounds(a, l);
    assert (q + 1) * l == l * q + l;
    if q < b {
      MulMonotone(q + 1, b, l);
    }
  }
}
