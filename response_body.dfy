/**
 * The text of the reply (`prepare_response` in inference-lambda/index.py):
 * fixed sentences around the received date, the subject, a 240-character
 * sample of the raw body, the label and the confidence.
 */
module ResponseBody {

  /** Longest body sample quoted in the reply. */
  const SampleLength: nat := 240

  const Intro := "We received your email sent at "
  const SubjectOpen := " with the subject \""
  const SubjectClose := "\".\r\n\r\n"
  const SampleHeader := "Here is a 240 character sample of the email body:\r\n"
  const SampleClose := "\r\n\r\n"
  const LabelIntro := "The email was categorized as "
  const ProbIntro := " with a "
  const ProbClose := "% confidence."

  /** Number of characters the reply has whatever its fields are. */
  const FixedLength: nat := |Intro| + |SubjectOpen| + |SubjectClose| + |SampleHeader|
                            + |SampleClose| + |LabelIntro| + |ProbIntro| + |ProbClose|

  function Min(a: int, b: int): int
  {
    if a <= b then a else b
  }

  /** `msg[:240]`; Python's slice stops early, without failing, on a shorter string. */
  function Sample(msg: string): (r: string)
    ensures |r| == Min(|msg|, SampleLength)
    ensures r <= msg
    ensures r == msg <==> |msg| <= SampleLength
  {
    msg[..Min(|msg|, SampleLength)]
  }

  /** The string obtained by appending `pieces`, first to last, to an empty string. */
  function Concat(pieces: seq<string>): string
  {
    if pieces == [] then "" else Concat(pieces[..|pieces| - 1]) + pieces[|pieces| - 1]
  }

  lemma {:induction false} ConcatAppend(a: seq<string>, b: seq<string>)
    ensures Concat(a + b) == Concat(a) + Concat(b)
  {
    if b == [] {
      assert a + b == a;
    } else {
      var b' := b[..|b| - 1];
      assert (a + b)[..|a + b| - 1] == a + b';
      ConcatAppend(a, b');
    }
  }

  lemma ConcatShort(a: string, b: string, c: string)
    ensures Concat([a, b]) == a + b
    ensures Concat([a, b, c]) == a + b + c
  {
    assert [a][..0] == [];
    assert Concat([a]) == a;
    assert [a, b][..1] == [a];
    assert Concat([a, b]) == a + b;
    assert [a, b, c][..2] == [a, b];
  }

  /**
   * Where each part of a thirteen-part concatenation stands, for parts that
   * are unknown strings (stated over variables, this stays cheap to prove
   * where the parts are the reply's long literal segments).
   */
  lemma Slices(r: string, a: string, b: string, c: string, d: string, e: string, f: string, g: string,
               h: string, i: string, j: string, k: string, l: string, m: string)
    requires r == a + b + c + d + e + f + g + h + i + j + k + l + m
    ensures var o := |a| + |b| + |c| + |d| + |e| + |f|;
      var z := |r| - |m|;
      && |r| == o + |g| + |h| + |i| + |j| + |k| + |l| + |m|
      && r[|a|..|a| + |b|] == b
      && r[|a| + |b| + |c|..|a| + |b| + |c| + |d|] == d
      && r[o - |f|..o] == f
      && r[o..o + |g|] == g
      && r[o + |g|..o + |g| + |h|] == h
      && r[z - |l| - |k| - |j|..z - |l| - |k|] == j
      && r[z - |l|..z] == l
  {
  }

  /** Concatenating thirteen pieces, stated over unknown strings. */
  lemma ConcatThirteen(a: string, b: string, c: string, d: string, e: string, f: string, g: string,
                       h: string, i: string, j: string, k: string, l: string, m: string)
    ensures Concat([a, b, c, d, e, f, g, h, i, j, k, l, m])
         == a + b + c + d + e + f + g + h + i + j + k + l + m
  {
    var p1, p2, p3, p4, p5 := [a, b], [c, d, e], [f, g, h], [i, j], [k, l, m];
    assert [a, b, c, d, e, f, g, h, i, j, k, l, m] == p1 + p2 + p3 + p4 + p5;
    ConcatAppend(p1 + p2 + p3 + p4, p5);
    ConcatAppend(p1 + p2 + p3, p4);
    ConcatAppend(p1 + p2, p3);
    ConcatAppend(p1, p2);
    ConcatShort(a, b, "");
    ConcatShort(c, d, e);
    ConcatShort(f, g, h);
    ConcatShort(i, j, "");
    ConcatShort(k, l, m);
  }

  /** The segments of the reply, in the order the source appends them. */
  function ResponsePieces(received: string, subject: string, msg: string, labelText: string, probText: string): seq<string>
  {
    [Intro, received, SubjectOpen, subject, SubjectClose,
     SampleHeader, Sample(msg), SampleClose,
     LabelIntro, labelText, ProbIntro, probText, ProbClose]
  }

  /** The reply body for the given fields. */
  function ResponseText(received: string, subject: string, msg: string, labelText: string, probText: string): string
  {
    Concat(ResponsePieces(received, subject, msg, labelText, probText))
  }

  /** The reply is exactly the thirteen segments, concatenated in order. */
  lemma ResponseTextSpelled(received: string, subject: string, msg: string, labelText: string, probText: string)
    ensures ResponseText(received, subject, msg, labelText, probText)
         == Intro + received + SubjectOpen + subject + SubjectClose
            + SampleHeader + Sample(msg) + SampleClose
            + LabelIntro + labelText + ProbIntro + probText + ProbClose
  {
    ConcatThirteen(Intro, received, SubjectOpen, subject, SubjectClose, SampleHeader, Sample(msg), SampleClose,
                   LabelIntro, labelText, ProbIntro, probText, ProbClose);
  }

  /** The reply opens with the fixed greeting and closes with "% confidence.". */
  lemma ResponseFraming(received: string, subject: string, msg: string, labelText: string, probText: string)
    ensures var r := ResponseText(received, subject, msg, labelText, probText);
      && |Intro| + |ProbClose| <= |r|
      && r[..|Intro|] == Intro
      && r[|r| - |ProbClose|..] == ProbClose
  {
    ResponseTextSpelled(received, subject, msg, labelText, probText);
  }

  /** Only the fields and the sample make the length vary. */
  lemma ResponseLength(received: string, subject: string, msg: string, labelText: string, probText: string)
    ensures |ResponseText(received, subject, msg, labelText, probText)|
         == FixedLength + |received| + |subject| + Min(|msg|, SampleLength) + |labelText| + |probText|
  {
    ResponseTextSpelled(received, subject, msg, labelText, probText);
  }

  /** The date and the subject can be read back from the start of the reply. */
  lemma ResponseQuotesHeaders(received: string, subject: string, msg: string, labelText: string, probText: string)
    ensures var r := ResponseText(received, subject, msg, labelText, probText);
      var o := |Intro| + |received| + |SubjectOpen|;
      && o + |subject| <= |r|
      && r[|Intro|..|Intro| + |received|] == received
      && r[o..o + |subject|] == subject
  {
    ResponseTextSpelled(received, subject, msg, labelText, probText);
    Slices(ResponseText(received, subject, msg, labelText, probText),
           Intro, received, SubjectOpen, subject, SubjectClose, SampleHeader, Sample(msg), SampleClose,
           LabelIntro, labelText, ProbIntro, probText, ProbClose);
  }

  /** Where the body sample starts in the reply. */
  function SampleOffset(received: string, subject: string): nat
  {
    |Intro| + |received| + |SubjectOpen| + |subject| + |SubjectClose| + |SampleHeader|
  }

  /** The sample of the body stands after the sample header, followed by a blank line. */
  lemma ResponseQuotesSample(received: string, subject: string, msg: string, labelText: string, probText: string)
    ensures var r := ResponseText(received, subject, msg, labelText, probText);
      var o := SampleOffset(received, subject);
      var n := |Sample(msg)|;
      && o + n + |SampleClose| <= |r|
      && r[o - |SampleHeader|..o] == SampleHeader
      && r[o..o + n] == Sample(msg)
      && r[o + n..o + n + |SampleClose|] == SampleClose
  {
    var sample := Sample(msg);
    ResponseTextSpelled(received, subject, msg, labelText, probText);
    Slices(ResponseText(received, subject, msg, labelText, probText),
           Intro, received, SubjectOpen, subject, SubjectClose, SampleHeader, sample, SampleClose,
           LabelIntro, labelText, ProbIntro, probText, ProbClose);
  }

  /** The label and the confidence can be read back counting from the end of the reply. */
  lemma ResponseQuotesClassification(received: string, subject: string, msg: string, labelText: string, probText: string)
    ensures var r := ResponseText(received, subject, msg, labelText, probText);
      var e := |r| - |ProbClose|;
      && |LabelIntro| + |labelText| + |ProbIntro| + |probText| <= e
      && r[e - |probText| - |ProbIntro| - |labelText|..e - |probText| - |ProbIntro|] == labelText
      && r[e - |probText|..e] == probText
  {
    ResponseTextSpelled(received, subject, msg, labelText, probText);
    Slices(ResponseText(received, subject, msg, labelText, probText),
           Intro, received, SubjectOpen, subject, SubjectClose, SampleHeader, Sample(msg), SampleClose,
           LabelIntro, labelText, ProbIntro, probText, ProbClose);
  }

  /**
   * `prepare_response`: the reply built by successive appends to `res`;
   * `labelText` and `probText` are the values already rendered by `str`.
   */
  method PrepareResponse(received: string, subject: string, msg: string, labelText: string, probText: string)
      returns (res: string)
    ensures res == ResponseText(received, subject, msg, labelText, probText)
  {
    res := Intro + received;
    res := res + SubjectOpen + subject + SubjectClose;
    res := res + SampleHeader + Sample(msg) + SampleClose;
    res := res + LabelIntro + labelText;
    res := res + ProbIntro + probText + ProbClose;
    ResponseTextSpelled(received, subject, msg, labelText, probText);
  }
}
