/** The streaming search of ece391grep.c against grep on the whole file. */
module Grep {
  import opened Bytes

  const COLON: byte := 58

  // ------------------------------------------------------- whole-file grep

  function LineEnd(text: seq<byte>): (n: nat)
    ensures n <= |text|
    ensures forall i :: 0 <= i < n ==> text[i] != NEWLINE
    ensures n < |text| ==> text[n] == NEWLINE
  {
    if text == [] || text[0] == NEWLINE then 0 else 1 + LineEnd(text[1..])
  }

  function Lines(text: seq<byte>): (ls: seq<seq<byte>>)
    decreases |text|
  {
    var n := LineEnd(text);
    [text[..n]] + if n < |text| then Lines(text[n + 1..]) else []
  }

  ghost predicate OccursAt(line: seq<byte>, s: seq<byte>, k: nat) {
    k + |s| <= |line| && line[k..k + |s|] == s
  }

  ghost predicate Contains(line: seq<byte>, s: seq<byte>) {
    exists k: nat :: OccursAt(line, s, k)
  }

  /** One line of output: the file name, a colon, the line. */
  function Report(fname: seq<byte>, line: seq<byte>): seq<byte> {
    fname + [COLON] + line + [NEWLINE]
  }

  ghost function GrepLines(fname: seq<byte>, s: seq<byte>, lines: seq<seq<byte>>): seq<byte> {
    if lines == [] then []
    else (if Contains(lines[0], s) then Report(fname, lines[0]) else []) + GrepLines(fname, s, lines[1..])
  }

  /** grep: a report on each line of the file that contains the pattern, in order. */
  ghost function WholeFileGrep(fname: seq<byte>, s: seq<byte>, file: seq<byte>): seq<byte> {
    GrepLines(fname, s, Lines(file))
  }

  /** Lines put together again, a newline between each two. */
  function Join(lines: seq<seq<byte>>): seq<byte> {
    if lines == [] then [] else if |lines| == 1 then lines[0] else lines[0] + [10] + Join(lines[1..])
  }

  /** The lines of a text are newline-free and joined they are the text. */
  lemma {:induction false} LinesJoin(text: seq<byte>)
    ensures Lines(text) != [] && Join(Lines(text)) == text
    ensures forall i :: 0 <= i < |Lines(text)| ==> 10 !in Lines(text)[i]
    decreases |text|
  {
    var n := LineEnd(text);
    if n < |text| {
      var rest := text[n + 1..];
      LinesJoin(rest);
      assert Lines(text) == [text[..n]] + Lines(rest);
      assert Lines(text)[1..] == Lines(rest);
      assert text == text[..n] + [10] + rest;
    } else {
      assert text[..n] == text;
    }
  }

  /**
   * grep taken apart: the first line is reported, as the file name, a colon and
   * the line, exactly if the pattern is somewhere in it; then comes the rest.
   */
  lemma GrepLineByLine(fname: seq<byte>, s: seq<byte>, line: seq<byte>, rest: seq<byte>)
    requires 10 !in line
    ensures var found := exists pre: seq<byte>, post: seq<byte> :: line == pre + s + post;
            var first := if found then fname + [58] + line + [10] else [];
            && WholeFileGrep(fname, s, line + [10] + rest) == first + WholeFileGrep(fname, s, rest)
            && WholeFileGrep(fname, s, line) == first
  {
    LinesFirst(line, rest);
    LastLine(line);
    ContainsMeans(line, s);
    hide Lines, Contains;
    assert ([line] + Lines(rest))[1..] == Lines(rest) && [line][1..] == [];
    assert GrepLines(fname, s, []) == [];
    assert fname + [58] + line + [10] == Report(fname, line);
  }

  lemma ContainsMeans(line: seq<byte>, s: seq<byte>)
    ensures Contains(line, s) <==> exists pre: seq<byte>, post: seq<byte> :: line == pre + s + post
  {
    if Contains(line, s) {
      var k: nat :| OccursAt(line, s, k);
      assert line == line[..k] + s + line[k + |s|..];
    }
    if pre: seq<byte>, post: seq<byte> :| line == pre + s + post {
      assert OccursAt(line, s, |pre|);
    }
  }

  lemma LastLine(line: seq<byte>)
    requires NEWLINE !in line
    ensures Lines(line) == [line]
  {
    assert line[..|line|] == line;
    LineEndIs(line, |line|);
  }

  // ------------------------------------------------------ what is searched

  /**
   * The test the program makes. The pattern is `char`, the data unsigned, so a
   * first byte of 128 or more compares unequal to everything; and an empty
   * pattern's terminator equals no byte of a line.
   */
  ghost predicate Hit(line: seq<byte>, s: seq<byte>) {
    s != [] && s[0] < 128 && Contains(line, s)
  }

  ghost function Entry(fname: seq<byte>, s: seq<byte>, line: seq<byte>): seq<byte> {
    if Hit(line, s) then Report(fname, line) else []
  }

  ghost function Entries(fname: seq<byte>, s: seq<byte>, lines: seq<seq<byte>>): seq<byte> {
    if lines == [] then [] else Entry(fname, s, lines[0]) + Entries(fname, s, lines[1..])
  }

  ghost function Found(fname: seq<byte>, s: seq<byte>, text: seq<byte>): seq<byte> {
    Entries(fname, s, Lines(text))
  }

  lemma LineEndIs(text: seq<byte>, n: nat)
    requires n <= |text| && NEWLINE !in text[..n] && (n < |text| ==> text[n] == NEWLINE)
    ensures LineEnd(text) == n
  {
    assert forall i :: 0 <= i < n ==> text[i] == text[..n][i];
  }

  lemma LinesFirst(line: seq<byte>, rest: seq<byte>)
    requires NEWLINE !in line
    ensures Lines(line + [NEWLINE] + rest) == [line] + Lines(rest)
  {
    var text := line + [NEWLINE] + rest;
    assert text[..|line|] == line && text[|line| + 1..] == rest;
    LineEndIs(text, |line|);
    hide LineEnd;
  }

  lemma EntriesFirst(fname: seq<byte>, s: seq<byte>, line: seq<byte>, lines: seq<seq<byte>>)
    ensures Entries(fname, s, [line] + lines) == Entry(fname, s, line) + Entries(fname, s, lines)
  {
    hide Entry;
    assert ([line] + lines)[1..] == lines;
  }

  /** A text that starts with a complete line is that line and the rest. */
  lemma FoundFirstLine(fname: seq<byte>, s: seq<byte>, line: seq<byte>, rest: seq<byte>)
    requires NEWLINE !in line
    ensures Lines(line + [NEWLINE] + rest) == [line] + Lines(rest)
    ensures Found(fname, s, line + [NEWLINE] + rest) == Entry(fname, s, line) + Found(fname, s, rest)
  {
    hide Lines, Entry, Entries;
    LinesFirst(line, rest);
    EntriesFirst(fname, s, line, Lines(rest));
  }

  lemma FoundLastLine(fname: seq<byte>, s: seq<byte>, line: seq<byte>)
    requires NEWLINE !in line
    ensures Lines(line) == [line] && Found(fname, s, line) == Entry(fname, s, line)
  {
    assert forall i :: 0 <= i < |line| ==> line[i] in line;
    assert line[..|line|] == line;
    assert [line][1..] == [] && Entries(fname, s, []) == [];
    assert Entries(fname, s, [line]) == Entry(fname, s, line) + Entries(fname, s, [line][1..]);
  }

  lemma FoundNothing(fname: seq<byte>, s: seq<byte>)
    ensures Found(fname, s, []) == []
  {
    FoundLastLine(fname, s, []);
  }

  /** An unterminated line at the end of the file. */
  lemma LastEntry(fname: seq<byte>, s: seq<byte>, line: seq<byte>, tail: seq<byte>)
    requires NEWLINE !in line && tail == []
    ensures Found(fname, s, line + tail) == Entry(fname, s, line)
    ensures Found(fname, s, []) == [] && LinesFit([])
  {
    assert line + tail == line;
    FoundLastLine(fname, s, line);
    FoundNothing(fname, s);
  }

  ghost predicate LinesFit(text: seq<byte>) {
    forall i :: 0 <= i < |Lines(text)| ==> |Lines(text)[i]| <= 1023
  }

  /** With an ASCII first byte the program's test is plain containment; otherwise nothing is ever found. */
  lemma {:induction false} EntriesAreGrep(fname: seq<byte>, s: seq<byte>, lines: seq<seq<byte>>)
    ensures s != [] && s[0] < 128 ==> Entries(fname, s, lines) == GrepLines(fname, s, lines)
    ensures s == [] || s[0] >= 128 ==> Entries(fname, s, lines) == []
  {
    if lines != [] {
      EntriesAreGrep(fname, s, lines[1..]);
    }
  }

  /** A newline in the buffer ends its first line. */
  lemma CompleteLine(fname: seq<byte>, s: seq<byte>, buf: seq<byte>, e: nat, tail: seq<byte>)
    requires e < |buf| && buf[e] == NEWLINE && NEWLINE !in buf[..e] && LinesFit(buf + tail)
    ensures Found(fname, s, buf + tail) == Entry(fname, s, buf[..e]) + Found(fname, s, buf[e + 1..] + tail)
    ensures LinesFit(buf[e + 1..] + tail)
  {
    var rest := buf[e + 1..] + tail;
    assert buf + tail == buf[..e] + [NEWLINE] + rest;
    FoundFirstLine(fname, s, buf[..e], rest);
    forall i | 0 <= i < |Lines(rest)|
      ensures |Lines(rest)[i]| <= 1023
    {
      assert Lines(rest)[i] == Lines(buf + tail)[i + 1];
    }
  }

  /** A full buffer without a newline would be part of a line that does not fit. */
  lemma LinesFitBuffer(buf: seq<byte>, tail: seq<byte>)
    requires NEWLINE !in buf && LinesFit(buf + tail)
    ensures |buf| <= 1023
  {
    var n := LineEnd(buf + tail);
    assert |Lines(buf + tail)[0]| == n;
    assert forall i :: 0 <= i < |buf| ==> (buf + tail)[i] == buf[i] && buf[i] in buf;
  }

  // ---------------------------------------------------------- the program

  /** ece391_strncmp(data + at, s, |s|) == 0 for a terminated line and a terminated pattern. */
  method PrefixMatches(data: array<byte>, at: nat, end: nat, s: seq<byte>) returns (equal: bool)
    requires at <= end < data.Length && data[end] == NUL && NulFree(data[at..end]) && NulFree(s)
    ensures equal <==> OccursAt(data[at..end], s, 0)
  {
    if |s| == 0 {
      return true;
    }
    var k, n := 0, |s|;
    while k < |s| && data[at + k] == s[k]
      invariant 0 <= k < |s| && at + k <= end && n == |s| - k
      invariant forall i :: 0 <= i < k ==> data[at + i] == s[i]
      decreases |s| - k
    {
      assert at + k < end;
      n := n - 1;
      if n == 0 {
        assert data[at..end][0..|s|] == s;
        return true;
      }
      k := k + 1;
    }
    if |s| <= end - at {
      assert data[at..end][0..|s|][k] != s[k];
    }
    return false;
  }

  lemma OccursShift(line: seq<byte>, s: seq<byte>, k: nat)
    requires k <= |line|
    ensures OccursAt(line[k..], s, 0) <==> OccursAt(line, s, k)
  {
    if k + |s| <= |line| {
      assert line[k..][0..|s|] == line[k..k + |s|];
    }
  }

  lemma FirstByteDiffers(line: seq<byte>, s: seq<byte>, k: nat)
    requires k < |line| && s != [] && line[k] != s[0]
    ensures !OccursAt(line, s, k)
  {
    if k + |s| <= |line| {
      assert line[k..k + |s|][0] == line[k];
    }
  }

  method SearchLine(data: array<byte>, start: nat, end: nat, s: seq<byte>) returns (hit: bool)
    requires start <= end < data.Length && data[end] == NUL && NulFree(data[start..end]) && NulFree(s)
    ensures hit <==> Hit(data[start..end], s)
  {
    var check := start;
    ghost var line := data[start..end];
    while check < end
      invariant start <= check <= end
      invariant s != [] && s[0] < 128 ==> forall k: nat :: k < check - start ==> !OccursAt(line, s, k)
    {
      ghost var k := check - start;
      assert data[check..end] == line[k..];
      if s != [] && s[0] < 128 && s[0] == data[check] {
        var equal := PrefixMatches(data, check, end, s);
        OccursShift(line, s, k);
        if equal {
          return true;
        }
      } else if s != [] && s[0] < 128 {
        FirstByteDiffers(line, s, k);
      }
      check := check + 1;
    }
    return false;
  }

  method FindLineEnd(data: array<byte>, start: nat, last: nat) returns (end: nat)
    requires start <= last < data.Length
    ensures start <= end <= last && NEWLINE !in data[start..end]
    ensures end < last ==> data[end] == NEWLINE
  {
    end := start;
    while end < last && data[end] != NEWLINE
      invariant start <= end <= last
      invariant NEWLINE !in data[start..end]
    {
      end := end + 1;
    }
  }

  /** ece391_strcpy(data, data + start): the terminated tail moves to the front. */
  method MoveDown(data: array<byte>, start: nat, end: nat)
    requires 0 < start <= end < data.Length && data[end] == NUL && NulFree(data[start..end])
    modifies data
    ensures data[..end - start] == old(data[start..end])
    ensures forall k :: end < k < data.Length ==> data[k] == old(data[k])
    ensures data[end] == NUL
  {
    forall k | start <= k < end
      ensures data[k] != NUL
    {
      assert data[start..end][k - start] != NUL;
    }
    var i := 0;
    while data[start + i] != NUL
      invariant 0 <= i <= end - start
      invariant forall k :: 0 <= k < i ==> data[k] == old(data[start + k])
      invariant forall k :: i <= k < data.Length ==> data[k] == old(data[k])
      decreases end - start - i
    {
      data[i] := data[start + i];
      i := i + 1;
    }
    data[i] := NUL;
  }

  // --------------------------------------------------------- buffer and tail

  /** Terminates, searches and reports the line data[start..end]. */
  method ReportLine(data: array<byte>, start: nat, end: nat, fname: seq<byte>, s: seq<byte>) returns (entry: seq<byte>)
    requires start <= end < data.Length && NulFree(data[start..end]) && NulFree(s)
    modifies data
    ensures entry == Entry(fname, s, old(data[start..end]))
    ensures data[end] == NUL && forall k :: 0 <= k < data.Length && k != end ==> data[k] == old(data[k])
  {
    data[end] := NUL;
    assert data[start..end] == old(data[start..end]);
    var hit := SearchLine(data, start, end, s);
    entry := if hit then fname + [COLON] + data[start..end] + [NEWLINE] else [];
  }

  /** Reporting a finished line leaves output plus remaining text as they were. */
  lemma LineReported(fname: seq<byte>, s: seq<byte>, out: seq<byte>, buf: seq<byte>, e: nat, tail: seq<byte>)
    requires e < |buf| && buf[e] == NEWLINE && NEWLINE !in buf[..e] && LinesFit(buf + tail)
    ensures out + Entry(fname, s, buf[..e]) + Found(fname, s, buf[e + 1..] + tail) == out + Found(fname, s, buf + tail)
    ensures LinesFit(buf[e + 1..] + tail)
  {
    hide Entry, Found, LinesFit;
    CompleteLine(fname, s, buf, e, tail);
  }

  /** So does reporting the unterminated line that ends the file. */
  lemma LastLineReported(fname: seq<byte>, s: seq<byte>, out: seq<byte>, buf: seq<byte>, tail: seq<byte>)
    requires NEWLINE !in buf && tail == []
    ensures out + Entry(fname, s, buf) + Found(fname, s, [] + tail) == out + Found(fname, s, buf + tail)
    ensures LinesFit([] + tail)
  {
    hide Entry, Found, LinesFit;
    LastEntry(fname, s, buf, tail);
    assert [] + tail == [];
  }

  /** Terminates the unfinished line data[start..end] and moves it to the front. */
  method CarryOver(data: array<byte>, start: nat, end: nat)
    requires data.Length == 1025 && 0 < start <= end <= 1024 && NulFree(data[start..end])
    modifies data
    ensures data[..end - start] == old(data[start..end])
    ensures old(data[1024]) != NEWLINE ==> data[1024] != NEWLINE
  {
    data[end] := NUL;
    assert data[start..end] == old(data[start..end]);
    MoveDown(data, start, end);
  }

  /**
   * One pass over the buffer: searches its complete lines, and either moves an
   * incomplete last line to the front or, at the end of the file, searches it.
   * `tail` is the unread part of the file.
   */
  method SearchBuffer(data: array<byte>, filled: nat, atEnd: bool, fname: seq<byte>, s: seq<byte>,
                      ghost tail: seq<byte>)
    returns (last: nat, out: seq<byte>)
    requires data.Length == 1025 && filled <= 1024 && data[1024] != NEWLINE
    requires NulFree(data[..filled]) && NulFree(s)
    requires LinesFit(data[..filled] + tail)
    requires (atEnd || filled < 1024) ==> tail == []
    modifies data
    ensures last <= 1023 && data[1024] != NEWLINE
    ensures NulFree(data[..last])
    ensures LinesFit(data[..last] + tail)
    ensures out + Found(fname, s, data[..last] + tail) == Found(fname, s, old(data[..filled]) + tail)
    ensures atEnd ==> last == 0
  {
    hide Found, Entry, LinesFit;
    var start := 0;
    out := [];
    ghost var all := data[..filled];
    ghost var buf := all;
    while true
      invariant start <= filled && data[1024] != NEWLINE
      invariant forall k :: start <= k < filled ==> data[k] == all[k]
      invariant buf == all[start..] && NulFree(buf) && LinesFit(buf + tail)
      invariant out + Found(fname, s, buf + tail) == Found(fname, s, all + tail)
      decreases filled - start
    {
      var end := FindLineEnd(data, start, filled);
      ghost var e := end - start;
      assert data[start..end] == all[start..end];
      assert all[start..end] == buf[..e];
      if data[end] != NEWLINE && !atEnd && start != 0 {
        assert buf[..e] == buf;
        CarryOver(data, start, end);
        last := filled - start;
        assert data[..last] == buf;
        return;
      }
      var entry := ReportLine(data, start, end, fname, s);
      if end < filled {
        LineReported(fname, s, out, buf, e, tail);
        buf := buf[e + 1..];
        assert buf == all[end + 1..];
      } else {
        assert buf[..e] == buf;
        LinesFitBuffer(buf, tail);
        LastLineReported(fname, s, out, buf, tail);
        buf := [];
      }
      out := out + entry;
      start := end + 1;
      if start >= filled {
        assert buf == data[..0];
        return 0, out;
      }
    }
  }

  /**
   * do_one_file on a file read through a descriptor that fills every request
   * until the end of the file. `stack` is what the uninitialised buffer held:
   * its last byte must not be a newline.
   */
  method DoOneFile(s: seq<byte>, fname: seq<byte>, file: seq<byte>, stack: seq<byte>) returns (out: seq<byte>)
    requires NulFree(s) && NulFree(file) && LinesFit(file)
    requires |stack| == 1025 && stack[1024] != NEWLINE
    ensures s != [] && s[0] < 128 ==> out == WholeFileGrep(fname, s, file)
    ensures s == [] || s[0] >= 128 ==> out == []
  {
    hide Entries, GrepLines, LinesFit, Lines;
    var data := new byte[1025](i requires 0 <= i < 1025 => stack[i]);
    var last, pos := 0, 0;
    out := [];
    assert data[..0] + file[0..] == file;
    while true
      invariant 0 <= last <= 1023 && 0 <= pos <= |file| && data[1024] != NEWLINE
      invariant NulFree(data[..last]) && LinesFit(data[..last] + file[pos..])
      invariant out + Found(fname, s, data[..last] + file[pos..]) == Found(fname, s, file)
      decreases |file| - pos
    {
      var cnt := Fill(data, last, file, pos);
      last := last + cnt;
      pos := pos + cnt;
      var more;
      last, more := SearchBuffer(data, last, cnt == 0, fname, s, file[pos..]);
      out := out + more;
      if cnt == 0 {
        break;
      }
    }
    assert data[..0] + file[pos..] == [];
    LastEntry(fname, s, [], []);
    EntriesAreGrep(fname, s, Lines(file));
  }

  /** read(fd, data + last, 1024 - last) */
  method Fill(data: array<byte>, last: nat, file: seq<byte>, pos: nat) returns (cnt: nat)
    requires data.Length == 1025 && last <= 1023 && pos <= |file|
    requires NulFree(data[..last]) && NulFree(file)
    modifies data
    ensures cnt <= 1024 - last && cnt <= |file| - pos
    ensures cnt < 1024 - last ==> pos + cnt == |file|
    ensures data[..last + cnt] + file[pos + cnt..] == old(data[..last]) + file[pos..]
    ensures NulFree(data[..last + cnt]) && data[1024] == old(data[1024])
  {
    cnt := 0;
    while cnt < 1024 - last && pos + cnt < |file|
      invariant cnt <= 1024 - last && pos + cnt <= |file|
      invariant forall k :: 0 <= k < last ==> data[k] == old(data[k])
      invariant forall k :: last <= k < last + cnt ==> data[k] == file[pos + k - last]
      invariant data[1024] == old(data[1024])
    {
      data[last + cnt] := file[pos + cnt];
      cnt := cnt + 1;
    }
    assert data[..last + cnt] == old(data[..last]) + file[pos..pos + cnt];
    SplitAt(old(data[..last]), file, pos, cnt);
  }

  lemma SplitAt(s: seq<byte>, file: seq<byte>, pos: nat, cnt: nat)
    requires pos + cnt <= |file| && NulFree(s) && NulFree(file)
    ensures s + file[pos..pos + cnt] + file[pos + cnt..] == s + file[pos..]
    ensures NulFree(s + file[pos..pos + cnt])
  {
    assert file[pos..] == file[pos..pos + cnt] + file[pos + cnt..];
  }
}
