/** The LIST text: pad, listFile's `ls -l`-style line, and the whole listing. */
module Listing {
  import opened Text

  /** What listFile reads from a java.io.File. */
  datatype Entry = Entry(isDir: bool, size: nat, date: string, name: string)

  function Max(a: int, b: int): int {
    if a < b then b else a
  }

  function Spaces(n: nat): (s: string)
    ensures |s| == n && forall i :: 0 <= i < n ==> s[i] == ' '
  {
    seq(n, _ => ' ')
  }

  /** pad: a StringBuilder filled with `length` spaces (none when length is negative). */
  method Pad(length: int) returns (s: string)
    ensures |s| == Max(length, 0)
    ensures forall i :: 0 <= i < |s| ==> s[i] == ' '
  {
    s := "";
    var i := 0;
    while i < length
      invariant 0 <= i == |s| <= Max(length, 0)
      invariant forall j :: 0 <= j < |s| ==> s[j] == ' '
    {
      s := s + " ";
      i := i + 1;
    }
  }

  /** The size column: Long.toString(size), left-padded with spaces to at least eight characters. */
  function SizeField(size: nat): (f: string)
    ensures var s := NatToString(size);
      && |f| == Max(8, |s|)
      && f[|f| - |s|..] == s
      && forall i :: 0 <= i < |f| - |s| ==> f[i] == ' '
  {
    var s := NatToString(size);
    Spaces(Max(8 - |s|, 0)) + s
  }

  /** The line listFile writes for one entry. */
  function EntryLine(e: Entry): string {
    [if e.isDir then 'd' else '-'] + "rwxrwxrwx 1 ftp ftp " + SizeField(e.size) + " " + e.date + " " + e.name + "\n"
  }

  /** listFile: the size field built with pad, then the writes of the line in order. */
  method ListFile(e: Entry) returns (line: string)
    ensures line == EntryLine(e)
  {
    var sizeStr := NatToString(e.size);
    var sizePadLength := Max(8 - |sizeStr|, 0);
    var padding := Pad(sizePadLength);
    assert padding == Spaces(sizePadLength);
    var sizeField := padding + sizeStr;
    assert sizeField == SizeField(e.size);
    var fixed := "rwxrwxrwx" + " " + "1" + " " + "ftp" + " " + "ftp" + " ";
    assert fixed == "rwxrwxrwx 1 ftp ftp ";
    line := [if e.isDir then 'd' else '-'] + fixed;
    line := line + sizeField + " " + e.date + " " + e.name + "\n";
  }

  /** The columns of a line made of a kind letter, a size field, a date and a name. */
  lemma Columns(kind: char, f: string, date: string, name: string)
    ensures var line, w, d := [kind] + "rwxrwxrwx 1 ftp ftp " + f + " " + date + " " + name + "\n", |f|, |date|;
      && |line| == 24 + w + d + |name|
      && line[0] == kind
      && line[1..21] == "rwxrwxrwx 1 ftp ftp "
      && line[21..21 + w] == f
      && line[21 + w] == ' '
      && line[22 + w..22 + w + d] == date
      && line[22 + w + d] == ' '
      && line[23 + w + d..|line| - 1] == name
      && line[|line| - 1] == '\n'
  {
    var head := [kind] + "rwxrwxrwx 1 ftp ftp ";
    assert |head| == 21 && head[1..] == "rwxrwxrwx 1 ftp ftp ";
  }

  /**
   * The fixed layout clients parse positionally: the kind letter, the
   * permission string, link count and owner/group, the size column, then
   * date and name, ending with a newline.
   */
  lemma EntryLineLayout(e: Entry)
    ensures var line, w, d := EntryLine(e), |SizeField(e.size)|, |e.date|;
      && |line| == 24 + w + d + |e.name|
      && line[0] == (if e.isDir then 'd' else '-')
      && line[1..21] == "rwxrwxrwx 1 ftp ftp "
      && line[21..21 + w] == SizeField(e.size)
      && line[21 + w] == ' '
      && line[22 + w..22 + w + d] == e.date
      && line[22 + w + d] == ' '
      && line[23 + w + d..|line| - 1] == e.name
      && line[|line| - 1] == '\n'
  {
    Columns(if e.isDir then 'd' else '-', SizeField(e.size), e.date, e.name);
  }

  /** The entry lines, in the order the directory enumeration gave them. */
  function Lines(entries: seq<Entry>): string
    decreases |entries|
  {
    if |entries| == 0 then "" else Lines(entries[..|entries| - 1]) + EntryLine(entries[|entries| - 1])
  }

  /** What LIST writes on the data connection: a total line, one line per entry, and "\r\n". */
  function ListingText(entries: seq<Entry>): string {
    "total " + NatToString(|entries|) + "\n" + Lines(entries) + "\r\n"
  }

  /** The LIST writes: the total line, the for-loop over the entries, the terminating "\r\n". */
  method EmitListing(entries: seq<Entry>) returns (text: string)
    ensures text == ListingText(entries)
  {
    var lines := "";
    for i := 0 to |entries|
      invariant lines == Lines(entries[..i])
    {
      assert entries[..i + 1][..i] == entries[..i];
      var line := ListFile(entries[i]);
      lines := lines + line;
    }
    assert entries[..|entries|] == entries;
    text := "total " + NatToString(|entries|) + "\n" + lines + "\r\n";
  }

  predicate OneLine(e: Entry) {
    '\n' !in e.date && '\n' !in e.name
  }

  lemma EntryLineCount(e: Entry)
    requires OneLine(e)
    ensures Count(EntryLine(e), '\n') == 1
  {
    var body := [if e.isDir then 'd' else '-'] + "rwxrwxrwx 1 ftp ftp " + SizeField(e.size) + " " + e.date + " " + e.name;
    assert EntryLine(e) == body + "\n";
    assert '\n' !in SizeField(e.size) by {
      var s := NatToString(e.size);
      var f := SizeField(e.size);
      forall i | 0 <= i < |f|
        ensures f[i] != '\n'
      {
        if i >= |f| - |s| {
          assert f[i] == s[i - (|f| - |s|)];
          assert IsDigit(s[i - (|f| - |s|)]);
        }
      }
    }
    assert '\n' !in body;
    CountAbsent(body, '\n');
    CountConcat(body, "\n", '\n');
  }

  lemma {:induction false} LinesCount(entries: seq<Entry>)
    requires forall i :: 0 <= i < |entries| ==> OneLine(entries[i])
    ensures Count(Lines(entries), '\n') == |entries|
    decreases |entries|
  {
    if |entries| > 0 {
      var init := entries[..|entries| - 1];
      LinesCount(init);
      EntryLineCount(entries[|entries| - 1]);
      CountConcat(Lines(init), EntryLine(entries[|entries| - 1]), '\n');
    }
  }

  /**
   * One line per entry: when no name or date holds a newline, the listing
   * has exactly two newlines besides those ending the entry lines (after
   * the total line and in the final "\r\n").
   */
  lemma ListingLineCount(entries: seq<Entry>)
    requires forall i :: 0 <= i < |entries| ==> OneLine(entries[i])
    ensures Count(ListingText(entries), '\n') == |entries| + 2
  {
    var n := NatToString(|entries|);
    var head := "total " + n;
    assert '\n' !in n by {
      forall i | 0 <= i < |n| ensures n[i] != '\n' {
        assert IsDigit(n[i]);
      }
    }
    assert '\n' !in head;
    CountAbsent(head, '\n');
    CountConcat(head, "\n", '\n');
    LinesCount(entries);
    CountConcat(head + "\n", Lines(entries), '\n');
    CountConcat(head + "\n" + Lines(entries), "\r\n", '\n');
    assert Count("\r\n", '\n') == 1;
    assert ListingText(entries) == head + "\n" + Lines(entries) + "\r\n";
  }
}
