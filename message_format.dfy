/**
 * Normalisation of an email body before it is classified
 * (`format_email_msg` in inference-lambda/index.py): every carriage return
 * is deleted, then every line feed becomes one space.
 */
module MessageFormat {

  /** Number of occurrences of `c` in `s`. */
  function Count(s: string, c: char): (n: nat)
    ensures n <= |s|
    ensures n == 0 <==> c !in s
  {
    if s == [] then 0 else (if s[0] == c then 1 else 0) + Count(s[1..], c)
  }

  /**
   * Python's `s.replace(target, repl)` for a one-character pattern: each
   * occurrence of `target`, left to right, is replaced by `repl`; the
   * replacement text is not scanned again.
   */
  function ReplaceChar(s: string, target: char, repl: string): (r: string)
    ensures |r| == |s| - Count(s, target) + Count(s, target) * |repl|
    ensures forall c :: c !in s && c !in repl ==> c !in r
    ensures target !in repl ==> target !in r
  {
    if s == [] then ""
    else (if s[0] == target then repl else [s[0]]) + ReplaceChar(s[1..], target, repl)
  }

  /** Replacing splits over concatenation: the pattern is one character, so no match straddles the seam. */
  lemma {:induction false} ReplaceCharAppend(a: string, b: string, target: char, repl: string)
    ensures ReplaceChar(a + b, target, repl) == ReplaceChar(a, target, repl) + ReplaceChar(b, target, repl)
  {
    if a == [] {
      assert a + b == b;
    } else {
      var head := if a[0] == target then repl else [a[0]];
      assert (a + b)[0] == a[0];
      assert (a + b)[1..] == a[1..] + b;
      assert ReplaceChar(a + b, target, repl) == head + ReplaceChar(a[1..] + b, target, repl);
      ReplaceCharAppend(a[1..], b, target, repl);
      assert ReplaceChar(a, target, repl) == head + ReplaceChar(a[1..], target, repl);
    }
  }

  /** A string without the pattern is returned unchanged. */
  lemma {:induction false} ReplaceCharAbsent(s: string, target: char, repl: string)
    requires target !in s
    ensures ReplaceChar(s, target, repl) == s
  {
    if s != [] {
      assert s == [s[0]] + s[1..];
      ReplaceCharAbsent(s[1..], target, repl);
    }
  }

  /** `msg.replace('\r', '').replace('\n', ' ')` */
  function FormatEmailMsg(msg: string): (r: string)
    ensures '\r' !in r && '\n' !in r
    ensures |r| == |msg| - Count(msg, '\r')
  {
    ReplaceChar(ReplaceChar(msg, '\r', ""), '\n', " ")
  }

  /** What a single input character turns into. */
  function NormalisedChar(c: char): string
  {
    if c == '\r' then "" else if c == '\n' then " " else [c]
  }

  /** One-pass reference: each character of `msg`, in order, replaced by its `NormalisedChar`. */
  function Normalised(msg: string): string
  {
    if msg == [] then "" else NormalisedChar(msg[0]) + Normalised(msg[1..])
  }

  /** Normalisation works piece by piece: it commutes with concatenation. */
  lemma FormatEmailMsgAppend(a: string, b: string)
    ensures FormatEmailMsg(a + b) == FormatEmailMsg(a) + FormatEmailMsg(b)
  {
    ReplaceCharAppend(a, b, '\r', "");
    ReplaceCharAppend(ReplaceChar(a, '\r', ""), ReplaceChar(b, '\r', ""), '\n', " ");
  }

  /** A carriage return vanishes, a line feed becomes one space, anything else is kept. */
  lemma FormatEmailMsgChar(c: char)
    ensures FormatEmailMsg([c]) == NormalisedChar(c)
  {
  }

  /**
   * The two chained passes agree with the one-pass reference: every character
   * that is neither CR nor LF is kept in its original order, each LF becomes
   * exactly one space and each CR is dropped.
   */
  lemma {:induction false} FormatEmailMsgIsNormalised(msg: string)
    ensures FormatEmailMsg(msg) == Normalised(msg)
  {
    if msg == [] {
    } else {
      assert msg == [msg[0]] + msg[1..];
      FormatEmailMsgAppend([msg[0]], msg[1..]);
      FormatEmailMsgChar(msg[0]);
      FormatEmailMsgIsNormalised(msg[1..]);
    }
  }

  /** A CRLF line break anywhere in the body becomes one space, not two. */
  lemma CrLfBecomesOneSpace(a: string, b: string)
    ensures FormatEmailMsg(a + "\r\n" + b) == FormatEmailMsg(a) + " " + FormatEmailMsg(b)
  {
    FormatEmailMsgAppend(a + "\r\n", b);
    FormatEmailMsgAppend(a, "\r\n");
    assert FormatEmailMsg("\r\n") == " " by {
      assert "\r\n" == ['\r'] + ['\n'];
      FormatEmailMsgAppend(['\r'], ['\n']);
      FormatEmailMsgChar('\r');
      FormatEmailMsgChar('\n');
    }
  }

  /** Normalising an already normalised text changes nothing. */
  lemma FormatEmailMsgIdempotent(msg: string)
    ensures FormatEmailMsg(FormatEmailMsg(msg)) == FormatEmailMsg(msg)
  {
    var r := FormatEmailMsg(msg);
    ReplaceCharAbsent(r, '\r', "");
    ReplaceCharAbsent(r, '\n', " ");
  }
}
