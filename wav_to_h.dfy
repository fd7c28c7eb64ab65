// tools/wav_to_h.py: keeps the first 32768 samples of a decoded WAV file and appends them to a
// C header as a sample rate, a sample count and an `int16_t` array on one line. Decoding the
// WAV file is scipy's work; the model takes the sample rate and the samples.

module WavToHeader {
  import CLib
  import PyText

  /** `4096*8`: the most samples kept. */
  const MaxSamples: nat := 4096 * 8

  /** The header file, opened in append mode: every write adds to its end. */
  class HeaderFile {
    var contents: seq<char>

    constructor (existing: seq<char>)
      ensures contents == existing
    {
      contents := existing;
    }

    /** `f.write(s)`. */
    method Write(s: seq<char>)
      modifies this
      ensures contents == old(contents) + s
    {
      contents := contents + s;
    }
  }

  /** `data[0:(4096*8)]`. */
  function Kept(data: seq<int>): (kept: seq<int>)
    ensures |kept| == if |data| < MaxSamples then |data| else MaxSamples
    ensures kept == data[..|kept|]
  {
    PyText.Prefix(data, MaxSamples)
  }

  /** The samples printed in decimal and joined by commas. */
  function Body(samples: seq<int>): seq<char>
  {
    PyText.Join(",", Fields(samples))
  }

  function Fields(samples: seq<int>): seq<seq<char>>
  {
    seq(|samples|, i requires 0 <= i < |samples| => PyText.SignedDecimal(samples[i]))
  }

  /** The three declaration lines the tool writes before the samples. */
  function Lead(rate: nat, count: nat): seq<char>
  {
    ("unsigned int sample_rate = " + CLib.Decimal(rate) + ";\r\n") +
    ("unsigned int samples = " + CLib.Decimal(count) + ";\r\n") +
    "int16_t audio[] = {\r\n"
  }

  /** Everything one run appends: the declarations, the samples on one line, and the closing
    * brace with no line break after it. */
  function Fragment(rate: nat, data: seq<int>): seq<char>
  {
    Lead(rate, |Kept(data)|) + (Body(Kept(data)) + "\r\n") + "};"
  }

  /** `to_16bit_wav(filepath)` with the decoded `rate` and `data`, appending to the header file
    * `f`: what was in the file stays in front of the new fragment. */
  method ToSixteenBitWav(f: HeaderFile, rate: nat, data: seq<int>)
    modifies f
    ensures f.contents == old(f.contents) + Fragment(rate, data)
  {
    var kept := PyText.Prefix(data, MaxSamples);
    ghost var before := f.contents;
    f.Write("unsigned int sample_rate = " + CLib.Decimal(rate) + ";\r\n");
    f.Write("unsigned int samples = " + CLib.Decimal(|kept|) + ";\r\n");
    f.Write("int16_t audio[] = {\r\n");
    var bytestring := PyText.Join(",", Fields(kept));
    f.Write(bytestring + "\r\n");
    f.Write("};");
    AppendAll(before, "unsigned int sample_rate = " + CLib.Decimal(rate) + ";\r\n",
      "unsigned int samples = " + CLib.Decimal(|kept|) + ";\r\n", "int16_t audio[] = {\r\n", bytestring + "\r\n", "};");
  }

  /** Five writes in a row add their concatenation. */
  lemma AppendAll(o: seq<char>, a: seq<char>, b: seq<char>, c: seq<char>, d: seq<char>, e: seq<char>)
    ensures o + a + b + c + d + e == o + (a + b + c + d + e)
  {
    calc {
      o + a + b + c + d + e;
      o + (a + b) + c + d + e;
      o + (a + b + c) + d + e;
      o + (a + b + c + d) + e;
      o + (a + b + c + d + e);
    }
  }

  /** Splitting the sample line at its commas and reading each field with `atoi` gives back the
    * samples, for any number of them but none. */
  lemma BodyReadsBack(samples: seq<int>)
    requires samples != []
    ensures var fields := PyText.Split(Body(samples), ',');
      |fields| == |samples| && forall i :: 0 <= i < |samples| ==> CLib.Atoi(fields[i]) == samples[i]
  {
    var items := Fields(samples);
    PyText.SplitJoin(items, ',');
    forall i | 0 <= i < |samples|
      ensures CLib.Atoi(items[i]) == samples[i]
    {
      PyText.AtoiOfSignedDecimal(samples[i], []);
      assert items[i] + [] == items[i];
    }
  }

  /** A run appends the declarations, then the sample line, then `"\r\n};"`; with
    * `BodyReadsBack` the sample line reads back as the first 32768 samples. */
  lemma FragmentLayout(rate: nat, data: seq<int>)
    ensures var t, lead, body := Fragment(rate, data), Lead(rate, |Kept(data)|), Body(Kept(data));
      |t| == |lead| + |body| + 4 && t[..|lead|] == lead && t[|lead|..|lead| + |body|] == body &&
      t[|lead| + |body|..] == "\r\n};"
  {
    var lead, body := Lead(rate, |Kept(data)|), Body(Kept(data));
    Slices(lead, body, "\r\n", "};");
    assert "\r\n" + "};" == "\r\n};";
  }

  lemma Slices(a: seq<char>, b: seq<char>, c: seq<char>, d: seq<char>)
    ensures var t := a + (b + c) + d;
      |t| == |a| + |b| + |c| + |d| && t[..|a|] == a && t[|a|..|a| + |b|] == b && t[|a| + |b|..] == c + d
  {
  }
}
