/** send: how a reply is written on the control connection. */
module Replies {
  import opened Wrappers
  import opened Text

  /** String.getBytes(US-ASCII): each character's code, '?' for the ones ASCII lacks. */
  function AsciiBytes(s: string): (b: seq<byte>)
    ensures |b| == |s|
    ensures forall i :: 0 <= i < |s| ==> b[i] < 128
    ensures forall i :: 0 <= i < |s| ==> s[i] as int < 128 ==> b[i] as int == s[i] as int
    ensures forall i :: 0 <= i < |s| ==> s[i] as int >= 128 ==> b[i] == 63
  {
    seq(|s|, i requires 0 <= i < |s| => AsciiChar(s[i]) as int)
  }

  /** The bytes `send(code, text)` writes: the code in decimal, a space, the text, CR LF. */
  function ReplyLine(code: nat, text: string): seq<byte> {
    AsciiBytes(NatToString(code) + " " + text + "\r\n")
  }

  predicate IsDigitByte(b: byte) {
    48 <= b <= 57
  }

  /** A client's reading of a reply line: three digits, a space, the text, CR LF. */
  function ParseReplyLine(line: seq<byte>): Option<(nat, seq<byte>)> {
    if |line| < 6 || !IsDigitByte(line[0]) || !IsDigitByte(line[1]) || !IsDigitByte(line[2])
       || line[3] != 32 || line[|line| - 2] != 13 || line[|line| - 1] != 10
    then None
    else Some(((line[0] as int - 48) * 100 + (line[1] as int - 48) * 10 + (line[2] as int - 48), line[4..|line| - 2]))
  }

  /** A three-digit reply reads back as its code and its (ASCII-encoded) text. */
  lemma ReplyLineRoundTrip(code: nat, text: string)
    requires 100 <= code <= 999
    ensures ParseReplyLine(ReplyLine(code, text)) == Some((code, AsciiBytes(text)))
  {
    NatToStringThreeDigits(code);
    var s := NatToString(code) + " " + text + "\r\n";
    var line := ReplyLine(code, text);
    assert |s| == |text| + 6;
    assert s[0] == DigitChar(code / 100) && s[1] == DigitChar(code / 10 % 10) && s[2] == DigitChar(code % 10);
    assert s[3] == ' ' && s[|s| - 2] == '\r' && s[|s| - 1] == '\n';
    assert line[4..|line| - 2] == AsciiBytes(text) by {
      forall i | 0 <= i < |text|
        ensures line[4..|line| - 2][i] == AsciiBytes(text)[i]
      {
        assert s[4 + i] == text[i];
      }
    }
  }
}
