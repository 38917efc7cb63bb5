/** Text inside the XML dump: `print_xml_cdata` writes CDATA sections, which section 2.7 of XML 1.0 says how to read. */
module Cdata {
  import opened Optional
  import opened Sequences
  import opened CText

  const OPEN: string := "<![CDATA["
  const CLOSE: string := "]]>"
  const SPLIT: string := "]]]]><![CDATA[>"

  /** The mark that closes a section stands at `i`. */
  predicate CloseAt(t: string, i: nat) {
    i + 2 < |t| && t[i] == ']' && t[i + 1] == ']' && t[i + 2] == '>'
  }

  /** The body that is written for the text from `i` on; a close mark in it is split over two sections. */
  function Encode(x: string, i: nat): string
    decreases |x| - i
  {
    if i >= |x| then ""
    else if CloseAt(x, i) then SPLIT + Encode(x, i + 3)
    else [x[i]] + Encode(x, i + 1)
  }

  method PrintCdata(x: string) returns (out: string)
    ensures out == OPEN + "\n" + Encode(x, 0) + "\n" + CLOSE + "\n"
  {
    out := OPEN + "\n";
    var i := 0;
    while i < |x|
      invariant i <= |x| && out + Encode(x, i) == OPEN + "\n" + Encode(x, 0)
    {
      if x[i] == ']' && At(x, i + 1) == ']' && At(x, i + 2) == '>' {
        Associate(out, SPLIT, Encode(x, i + 3));
        out := out + SPLIT;
        i := i + 3;
      } else {
        Associate(out, [x[i]], Encode(x, i + 1));
        out := out + [x[i]];
        i := i + 1;
      }
    }
    assert out + "" == out;
    out := out + "\n" + CLOSE + "\n";
  }

  /** A row of CDATA sections and nothing else: the character data they hold. Outside a section at the start of `t`. */
  function ReadSections(t: string): Option<string>
    decreases |t|
  {
    if t == "" then Some("") else if OPEN <= t then ReadInside(t[|OPEN|..]) else None
  }

  /** The same, inside a section: it lasts until the first close mark. */
  function ReadInside(t: string): Option<string>
    decreases |t|
  {
    if t == "" then None
    else if CloseAt(t, 0) then ReadSections(t[3..])
    else Prepend([t[0]], ReadInside(t[1..]))
  }

  function Prepend(s: string, r: Option<string>): Option<string> {
    if r.None? then None else Some(s + r.value)
  }

  lemma Plain(c: char, t: string)
    requires !CloseAt([c] + t, 0)
    ensures ReadInside([c] + t) == Prepend([c], ReadInside(t))
  {
    assert ([c] + t)[1..] == t;
  }

  lemma Opened(t: string)
    ensures ReadSections(OPEN + t) == ReadInside(t)
  {
    assert (OPEN + t)[|OPEN|..] == t;
  }

  lemma Closed(t: string)
    ensures ReadInside(CLOSE + t) == ReadSections(t)
  {
    assert (CLOSE + t)[3..] == t;
  }

  /** The split close mark is read as one, across the two sections. */
  lemma SplitClose(t: string)
    ensures ReadInside(SPLIT + t) == Prepend(CLOSE, ReadInside(t))
  {
    var a := ['>'] + t;
    var b := OPEN + a;
    var c := CLOSE + b;
    var d := [']'] + c;
    assert SPLIT + t == [']'] + d;
    calc {
      ReadInside([']'] + d);
      { Plain(']', d); }
      Prepend("]", ReadInside(d));
      { Plain(']', c); }
      Prepend("]", Prepend("]", ReadInside(c)));
      { Closed(b); Opened(a); }
      Prepend("]", Prepend("]", ReadInside(a)));
      { Plain('>', t); }
      Prepend("]", Prepend("]", Prepend(">", ReadInside(t))));
    }
    if ReadInside(t).Some? {
      var v := ReadInside(t).value;
      assert "]" + ("]" + (">" + v)) == CLOSE + v;
    }
  }

  /** The first character of what is written is the first character of the text. */
  lemma FirstWritten(x: string, i: nat)
    requires i < |x|
    ensures Encode(x, i) != "" && Encode(x, i)[0] == x[i]
    ensures CloseAt(x, i) ==> |Encode(x, i)| > 1 && Encode(x, i)[1] == ']'
    ensures !CloseAt(x, i) ==> Encode(x, i)[1..] == Encode(x, i + 1)
  {
  }

  /** Where no close mark starts in the text, none starts in what is written. */
  lemma NoCloseWritten(x: string, i: nat, tail: string)
    requires i < |x| && !CloseAt(x, i) && tail != "" && tail[0] == '\n'
    ensures !CloseAt([x[i]] + (Encode(x, i + 1) + tail), 0)
  {
    var e := Encode(x, i + 1);
    var t := [x[i]] + (e + tail);
    assert t[1] == if e == "" then '\n' else e[0];
    if i + 1 < |x| {
      FirstWritten(x, i + 1);
      assert |e| > 1 ==> t[2] == e[1];
      assert |e| == 1 ==> t[2] == '\n';
      if !CloseAt(x, i + 1) && i + 2 < |x| {
        FirstWritten(x, i + 2);
        assert e[1..][0] == x[i + 2];
      }
    }
  }

  /** Reading the body and the closing mark gives the text back. */
  lemma {:induction false} EncodedIsRead(x: string, i: nat)
    requires i <= |x|
    ensures ReadInside(Encode(x, i) + ("\n" + CLOSE)) == Some(x[i..] + "\n")
    decreases |x| - i
  {
    var tail := "\n" + CLOSE;
    if i == |x| {
      Plain('\n', CLOSE);
      Closed("");
      assert CLOSE + "" == CLOSE && Encode(x, i) + tail == tail == ['\n'] + CLOSE;
      assert x[i..] + "\n" == "\n" == ['\n'] + "";
    } else if CloseAt(x, i) {
      EncodedIsRead(x, i + 3);
      SplitClose(Encode(x, i + 3) + tail);
      Associate(SPLIT, Encode(x, i + 3), tail);
      Associate(CLOSE, x[i + 3..], "\n");
      assert x[i..] == CLOSE + x[i + 3..];
    } else {
      EncodedIsRead(x, i + 1);
      NoCloseWritten(x, i, tail);
      Plain(x[i], Encode(x, i + 1) + tail);
      Associate([x[i]], Encode(x, i + 1), tail);
      Associate([x[i]], x[i + 1..], "\n");
      assert x[i..] == [x[i]] + x[i + 1..];
    }
  }

  lemma Bracketed(body: string)
    ensures OPEN + "\n" + body + "\n" + CLOSE == OPEN + (['\n'] + (body + ("\n" + CLOSE)))
  {
    Associate(body, "\n", CLOSE);
    Associate(OPEN + "\n" + body, "\n", CLOSE);
    Associate(OPEN + "\n", body, "\n" + CLOSE);
    Associate(OPEN, "\n", body + ("\n" + CLOSE));
    assert ['\n'] == "\n";
  }

  /** What is printed, up to its last newline, is a row of CDATA sections that hold the text between two newlines. */
  lemma PrintedIsRead(x: string)
    ensures ReadSections(OPEN + "\n" + Encode(x, 0) + "\n" + CLOSE) == Some("\n" + x + "\n")
  {
    var t := Encode(x, 0) + ("\n" + CLOSE);
    EncodedIsRead(x, 0);
    Plain('\n', t);
    Opened(['\n'] + t);
    Bracketed(Encode(x, 0));
    assert x[0..] == x;
    Associate("\n", x, "\n");
  }
}
