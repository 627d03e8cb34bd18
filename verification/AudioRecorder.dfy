/**
 The audio snippet of a live session's trace: the first thirty seconds of what was
 fed, as 16-bit little-endian bytes, and the count of everything fed.
 */
module AudioRecorder {
  import opened Basics

  const MAX_SNIPPET_SECONDS := 30
  const SAMPLE_RATE := 16000
  const MAX_BYTES := MAX_SNIPPET_SECONDS * SAMPLE_RATE * 2
  const MAX_SAMPLES := MAX_SNIPPET_SECONDS * SAMPLE_RATE

  /** Conversion of a scaled sample to an integer truncates toward zero. */
  function Truncate(x: real): int {
    if x >= 0.0 then x.Floor else -((-x).Floor)
  }

  /** The 16-bit value of a sample: scaled, truncated, then clamped instead of wrapped. */
  function Quantize(sample: real): (v: int)
    ensures -32768 <= v <= 32767
  {
    var v := Truncate(sample * 32767.0);
    if v > 32767 then 32767 else if v < -32768 then -32768 else v
  }

  function LittleEndian(v: int): (b: seq<Byte>)
    requires -32768 <= v <= 32767
    ensures |b| == 2
  {
    var u := if v < 0 then v + 65536 else v;
    [u % 256, u / 256]
  }

  /**
   A sample is scaled by 32767 and cut to the integer next to it towards zero; what
   falls outside of 16 bits becomes the nearest end of the range.
   */
  lemma QuantizeIs(sample: real)
    ensures var x, v := sample * 32767.0, Quantize(sample);
            && (x >= 32767.0 ==> v == 32767) && (x <= -32768.0 ==> v == -32768)
            && (0.0 <= x < 32767.0 ==> v as real <= x < v as real + 1.0)
            && (-32768.0 < x <= 0.0 ==> v as real - 1.0 < x <= v as real)
  {
    var x := sample * 32767.0;
    assert x.Floor as real <= x < x.Floor as real + 1.0;
    assert (-x).Floor as real <= -x < (-x).Floor as real + 1.0;
  }

  function Encode(samples: seq<real>): (bytes: seq<Byte>)
    ensures |bytes| == 2 * |samples|
  {
    if samples == [] then []
    else Encode(samples[..|samples| - 1]) + LittleEndian(Quantize(samples[|samples| - 1]))
  }

  /** Sample k of an encoding, low byte first and read as a signed number, is the quantized sample k. */
  lemma {:induction false} EncodeReadsBack(samples: seq<real>, k: nat)
    requires k < |samples|
    ensures var low: int, high: int := Encode(samples)[2 * k], Encode(samples)[2 * k + 1];
            var u := low + 256 * high;
            (if u >= 32768 then u - 65536 else u) == Quantize(samples[k])
  {
    var front, v := samples[..|samples| - 1], Quantize(samples[|samples| - 1]);
    if k < |front| {
      EncodeReadsBack(front, k);
    } else {
      var b := LittleEndian(v);
      assert Encode(samples)[2 * k] == b[0] && Encode(samples)[2 * k + 1] == b[1];
    }
  }

  lemma {:induction false} EncodeAppend(a: seq<real>, b: seq<real>)
    ensures Encode(a + b) == Encode(a) + Encode(b)
  {
    if b == [] {
      assert a + b == a;
    } else {
      var front, last := b[..|b| - 1], LittleEndian(Quantize(b[|b| - 1]));
      assert (a + b)[..|a + b| - 1] == a + front;
      EncodeAppend(a, front);
      assert Encode(a + b) == (Encode(a) + Encode(front)) + last;
    }
  }

  function Min(a: nat, b: nat): nat {
    if a < b then a else b
  }

  /** What is kept of everything fed. */
  function Snippet(fed: seq<real>): seq<real> {
    fed[..Min(|fed|, MAX_SAMPLES)]
  }

  /** The first thirty seconds of 16000 samples each, or all there is. */
  lemma SnippetIs(fed: seq<real>)
    ensures Snippet(fed) <= fed
    ensures |Snippet(fed)| == if |fed| <= 480000 then |fed| else 480000
    ensures |Encode(Snippet(fed))| <= 960000
  {
  }

  class Recorder {
    var pcm: seq<Byte>
    var fedSamples: nat

    /** The recording of everything fed so far, whatever its cut into chunks. */
    ghost predicate Records(fed: seq<real>)
      reads this
    {
      fedSamples == |fed| && pcm == Encode(Snippet(fed))
    }

    constructor ()
      ensures Records([])
    {
      pcm, fedSamples := [], 0;
    }

    method AddPCM(chunk: seq<real>, ghost fed: seq<real>)
      requires Records(fed)
      modifies this
      ensures Records(fed + chunk)
      ensures |pcm| <= 960000 && old(pcm) <= pcm
    {
      fedSamples := fedSamples + |chunk|;
      var room := (MAX_BYTES - |pcm|) / 2;
      if room > 0 {
        var kept := chunk;
        if |kept| > room {
          kept := kept[..room];
        }
        assert Snippet(fed) == fed;
        assert Snippet(fed + chunk) == fed + kept;
        EncodeAppend(fed, kept);
        pcm := pcm + Encode(kept);
      } else {
        assert Snippet(fed + chunk) == Snippet(fed);
      }
    }

    /** Any sequence of calls: the count is the total fed and the bytes encode its first samples. */
    method AddAll(chunks: seq<seq<real>>)
      requires Records([])
      modifies this
      ensures Records(Concat(chunks))
      ensures |pcm| == 2 * (if fedSamples <= 480000 then fedSamples else 480000) <= 960000
    {
      var i := 0;
      while i < |chunks|
        invariant i <= |chunks|
        invariant Records(Concat(chunks[..i]))
      {
        AddPCM(chunks[i], Concat(chunks[..i]));
        assert chunks[..i + 1][..i] == chunks[..i];
        i := i + 1;
      }
      assert chunks[..i] == chunks;
    }
  }
}
