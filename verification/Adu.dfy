/** The base64 stage of the receive path: `decode_adu_base64` in src/utils/proto.rs. */
module Adu {
  import opened Bytes
  import Base64

  // How many leading bytes satisfy p: `iter().take_while(p).count()`.
  function CountWhile(s: seq<byte>, p: byte -> bool): (n: nat)
    ensures n <= |s|
    ensures forall i :: 0 <= i < n ==> p(s[i])
    ensures n < |s| ==> !p(s[n])
  {
    if s == [] || !p(s[0]) then 0 else 1 + CountWhile(s[1..], p)
  }

  predicate InRun(c: byte) { Base64.IsLetter(c) || c == Base64.PAD }

  predicate NotPad(c: byte) { c != Base64.PAD }

  // The maximal leading run of alphabet bytes, pads excluded.
  function LeadingLetters(s: seq<byte>): (r: seq<byte>)
    ensures r <= s && Base64.AllLetters(r)
    ensures |r| < |s| ==> !Base64.IsLetter(s[|r|])
  {
    s[..CountWhile(s, Base64.IsLetter)]
  }

  // What the stage computes: re-pad the leading letters and decode them.
  function DecodeAdu(buf: seq<byte>): Option<seq<byte>> {
    var core := LeadingLetters(buf);
    if core == [] || |core| % 4 == 1 then None
    else Base64.Decode(core + Base64.Pads(|core|))
  }

  lemma LettersByMax(s: seq<byte>, r: seq<byte>)
    requires r <= s && Base64.AllLetters(r) && (|r| < |s| ==> !Base64.IsLetter(s[|r|]))
    ensures LeadingLetters(s) == r
  {
    var t := LeadingLetters(s);
    assert t == s[..|t|] && r == s[..|r|];
  }

  // Letters in front are always taken, and the run goes on behind them.
  lemma LettersOfConcat(a: seq<byte>, rest: seq<byte>)
    requires Base64.AllLetters(a)
    ensures LeadingLetters(a + rest) == a + LeadingLetters(rest)
  {
    var r := a + LeadingLetters(rest);
    var s := a + rest;
    assert forall i :: |a| <= i < |s| ==> s[i] == rest[i - |a|];
    LettersByMax(s, r);
  }

  // Scanning for alphabet-or-pad and then for the first pad finds the leading letters.
  lemma TwoScans(buf: seq<byte>)
    ensures var run := buf[..CountWhile(buf, InRun)];
            run[..CountWhile(run, NotPad)] == LeadingLetters(buf)
  {
    var runLen := CountWhile(buf, InRun);
    var run := buf[..runLen];
    var coreLen := CountWhile(run, NotPad);
    forall i | 0 <= i < coreLen ensures Base64.IsLetter(run[..coreLen][i]) {
      assert InRun(buf[i]) && NotPad(run[i]);
    }
    if coreLen < runLen {
      assert !NotPad(run[coreLen]);
    } else if runLen < |buf| {
      assert !InRun(buf[runLen]);
    }
    assert run[..coreLen] == buf[..coreLen];
    LettersByMax(buf, run[..coreLen]);
  }

  lemma PadStep(s: seq<byte>)
    requires |s| % 4 >= 2
    ensures s + Base64.Pads(|s|) == s + [Base64.PAD] + Base64.Pads(|s| + 1)
  {
  }

  method DecodeAduBase64(buf: seq<byte>) returns (r: Option<seq<byte>>)
    ensures r == DecodeAdu(buf)
  {
    var runLen := CountWhile(buf, InRun);
    var run := buf[..runLen];
    var coreLen := CountWhile(run, NotPad);
    TwoScans(buf);
    if coreLen == 0 || coreLen % 4 == 1 {
      return None;
    }
    var normalised := run[..coreLen];
    while |normalised| % 4 != 0
      invariant coreLen <= |normalised| && |normalised| % 4 != 1
      invariant normalised + Base64.Pads(|normalised|) == run[..coreLen] + Base64.Pads(coreLen)
      decreases (4 - |normalised| % 4) % 4
    {
      PadStep(normalised);
      normalised := normalised + [Base64.PAD];
    }
    assert normalised + Base64.Pads(|normalised|) == normalised;
    r := Base64.Decode(normalised);
  }

  lemma DecodePadded(core: seq<byte>, b: seq<byte>)
    requires Base64.AllLetters(core)
    ensures Base64.Decode(core + Base64.Pads(|core|)) == Some(b) <==> core == Base64.Unpadded(b)
  {
    if core == Base64.Unpadded(b) {
      Base64.DecodeEncode(b);
    }
    if Base64.Decode(core + Base64.Pads(|core|)) == Some(b) {
      Base64.EncodeDecode(core + Base64.Pads(|core|));
      CoreOfPadded(core, Base64.Unpadded(b));
    }
  }

  // The exact meaning of the stage: it yields b just when b is non-empty and the leading
  // letters are the encoding of b with its padding stripped.
  lemma DecodeAduExact(buf: seq<byte>, b: seq<byte>)
    ensures DecodeAdu(buf) == Some(b) <==> b != [] && LeadingLetters(buf) == Base64.Unpadded(b)
  {
    hide Base64.Unpadded, Base64.Decode, Base64.IsLetter;
    var core := LeadingLetters(buf);
    DecodePadded(core, b);
    assert |Base64.Unpadded(b)| % 4 != 1;
  }

  // Two letter runs with the same padded form are equal.
  lemma CoreOfPadded(a: seq<byte>, b: seq<byte>)
    requires Base64.AllLetters(a) && Base64.AllLetters(b)
    requires a + Base64.Pads(|a|) == b + Base64.Pads(|b|)
    ensures a == b
  {
    var pa, pb := Base64.Pads(|a|), Base64.Pads(|b|);
    assert !Base64.IsLetter(Base64.PAD);
    LettersOfConcat(a, pa);
    LettersOfConcat(b, pb);
    LettersByMax(pa, []);
    LettersByMax(pb, []);
    assert a + [] == a && b + [] == b;
  }

  // The stage keeps an encoding, however many of its pads are left, exactly when what follows
  // cannot be taken for more letters.
  lemma PadsAndJunk(b: seq<byte>, pads: nat, junk: seq<byte>)
    requires b != [] && pads <= |Base64.Pads(|Base64.Unpadded(b)|)|
    ensures DecodeAdu(Base64.Unpadded(b) + Base64.Pads(|Base64.Unpadded(b)|)[..pads] + junk) == Some(b)
       <==> pads > 0 || junk == [] || !Base64.IsLetter(junk[0])
  {
    var u := Base64.Unpadded(b);
    var rest := Base64.Pads(|u|)[..pads] + junk;
    assert u + Base64.Pads(|u|)[..pads] + junk == u + rest;
    LettersOfConcat(u, rest);
    DecodeAduExact(u + rest, b);
    if pads > 0 || junk == [] || !Base64.IsLetter(junk[0]) {
      assert !Base64.IsLetter(Base64.PAD);
      LettersByMax(rest, []);
      assert u + [] == u;
    } else {
      assert LeadingLetters(rest) != [] && |u + LeadingLetters(rest)| > |u|;
    }
  }
}
