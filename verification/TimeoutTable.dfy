/** scripts/install-macbook-client.py, `with_mcp_timeouts`: finding the Workbench table in a
    configuration, editing its lines in place, and adding what is missing. */
module TimeoutTable {
  import opened Options
  import opened TimeoutEditor

  /** The first line from the `i`th on that is `wanted`, or the end. */
  function First(lines: seq<string>, i: nat, wanted: string -> bool): (r: nat)
    requires i <= |lines|
    ensures i <= r <= |lines|
    ensures forall k | i <= k < r :: !wanted(lines[k])
    ensures r < |lines| ==> wanted(lines[r])
    decreases |lines| - i
  {
    if i == |lines| || wanted(lines[i]) then i else First(lines, i + 1, wanted)
  }

  function DefaultEnding(text: string): string {
    if exists k | 0 <= k < |text| - 1 :: text[k] == '\r' && text[k + 1] == '\n' then "\r\n" else "\n"
  }

  predicate Has(lines: seq<string>, key: Key) {
    exists k {:trigger Setting(lines[k])} | 0 <= k < |lines| :: Setting(lines[k]) == Some(key)
  }

  /** The timeouts that the loop writes. */
  predicate Seen(lines: seq<string>, key: Key) {
    key != StartupMs && Has(lines, key)
  }

  predicate IsClosed(text: string) {
    text != "" && text[|text| - 1] in {'\n', '\r'}
  }

  function Closed(text: string, default: string): string {
    if IsClosed(text) then text else text + default
  }

  function Addition(lines: seq<string>, key: Key, default: string): string {
    if Seen(lines, key) then "" else Head("", key) + default
  }

  /** The table after the update. */
  function Table(header: string, body: seq<string>, default: string): string {
    Closed(header + Edited(body, default), default)
    + Addition(body, StartupSec, default) + Addition(body, ToolSec, default)
  }

  /** The lines before the Workbench table, the table with its header, and the rest. */
  datatype Parts = Parts(before: seq<string>, table: seq<string>, after: seq<string>)

  /** `None` where there is no line that `isHeader`. */
  function PartsWith(text: string, isHeader: string -> bool): (r: Option<Parts>)
    ensures r.Some? ==> r.value.table != []
  {
    var lines := SplitLines(text);
    var start := First(lines, 0, isHeader);
    if start == |lines| then None
    else
      var end := First(lines, start + 1, Opens);
      Some(Parts(lines[..start], lines[start..end], lines[end..]))
  }

  /** `None` where there is no Workbench table. */
  function PartsOf(text: string): (r: Option<Parts>)
    ensures r.Some? ==> r.value.table != []
  {
    PartsWith(text, IsHeader)
  }

  function Updated(p: Parts, default: string): string
    requires p.table != []
  {
    Join(p.before) + Table(p.table[0], p.table[1..], default) + Join(p.after)
  }

  function WithTimeouts(text: string): Option<string> {
    match PartsOf(text)
    case None => None
    case Some(parts) =>
      Some(Updated(parts, DefaultEnding(text)))
  }

  /** The lines of a text: not empty, and ended but for the last. */
  predicate AreLines(lines: seq<string>) {
    && (forall k | 0 <= k < |lines| :: IsLine(lines[k]))
    && (forall k | 0 <= k < |lines| - 1 :: Ended(lines[k]))
  }

  lemma {:induction false} JoinConcat(a: seq<string>, b: seq<string>)
    ensures Join(a + b) == Join(a) + Join(b)
  {
    if a == [] {
      assert a + b == b;
    } else {
      assert (a + b)[1..] == a[1..] + b;
      JoinConcat(a[1..], b);
      Associate(a[0], Join(a[1..]), Join(b));
    }
  }

  lemma JoinOne(line: string)
    ensures Join([line]) == line
  {
    assert [line][1..] == [];
  }

  /** The lines before and from the `i`th are the lines of the texts they make. */
  ghost predicate SplitsAt(lines: seq<string>, text: string, i: nat)
    requires i <= |lines|
  {
    && SplitLines(Join(lines[..i])) == lines[..i] && SplitLines(Join(lines[i..])) == lines[i..]
    && Join(lines[..i]) + Join(lines[i..]) == text
    && (0 < i < |lines| ==> CleanCut(Join(lines[..i]), Join(lines[i..])))
  }

  lemma {:induction false} SplitAt(text: string, i: nat)
    requires i <= |SplitLines(text)|
    ensures SplitsAt(SplitLines(text), text, i)
    decreases i
  {
    if i == 0 {
      JoinSplit(text);
      SplitAtStart(SplitLines(text), text);
    } else {
      var first, rest := text[..LineLength(text)], text[LineLength(text)..];
      SplitStep(text, first, rest);
      SplitAt(rest, i - 1);
      SplitAtFirst(SplitLines(text), text, first, rest, SplitLines(rest), i - 1);
    }
  }

  lemma SplitAtStart(lines: seq<string>, text: string)
    requires lines == SplitLines(text) && Join(lines) == text
    ensures SplitsAt(lines, text, 0)
  {
    assert lines[0..] == lines && lines[..0] == [];
  }

  lemma SplitStep(text: string, first: string, rest: string)
    requires text != "" && first == text[..LineLength(text)] && rest == text[LineLength(text)..]
    ensures SplitLines(text) == [first] + SplitLines(rest) && text == first + rest
    ensures IsLine(first) && (rest != "" ==> CleanCut(first, rest))
  {
    FirstLine(text);
  }

  lemma SplitAtFirst(lines: seq<string>, text: string, first: string, rest: string, more: seq<string>, i: nat)
    requires lines == [first] + more && text == first + rest
    requires IsLine(first) && (rest != "" ==> CleanCut(first, rest)) && i <= |more|
    requires SplitsAt(more, rest, i)
    ensures SplitsAt(lines, text, i + 1)
  {
    assert lines[i + 1..] == more[i..] && lines[..i + 1] == [first] + more[..i];
    JoinConcat([first], more[..i]);
    JoinOne(first);
    Prefixed(first, rest, Join(more[..i]), Join(more[i..]));
    assert i == 0 ==> Join(more[..i]) == "";
    assert i > 0 ==> Join(more[..i]) != "" by {
      assert SplitLines("") == [];
    }
    assert i < |more| ==> Join(more[i..]) != "" by {
      assert SplitLines("") == [];
    }
  }

  lemma Prefixed(first: string, rest: string, before: string, after: string)
    requires IsLine(first) && (rest != "" ==> CleanCut(first, rest)) && before + after == rest
    requires before != "" && after != "" ==> CleanCut(before, after)
    ensures SplitLines(first + before) == [first] + SplitLines(before)
    ensures first + before + after == first + rest
    ensures after != "" ==> CleanCut(first + before, after)
  {
    if before == "" {
      assert first + before == first;
      SplitLine(first);
    } else {
      assert before[0] == rest[0];
      SplitClean(first, before);
    }
  }

  /** A setting in the table has its fixed value, and none is in milliseconds. */
  predicate Fixed(line: string) {
    match Setting(line)
    case None => true
    case Some(key) =>
      && key != StartupMs
      && var head := Head(Indent(line), key);
      head <= line && (|line| == |head| || line[|head|] == ' ' || IsBreak(line[|head|]))
  }

  predicate Calm(line: string) {
    !Opens(line) && Fixed(line)
  }

  predicate AllCalm(lines: seq<string>) {
    forall k | 0 <= k < |lines| :: Calm(lines[k])
  }

  /** The header, or the header completed. */
  predicate Heads(line: string, header: string) {
    || line == header
    || (&& header <= line && header != "" && IsNewline(line[|header|..])
        && (!Ended(header) || (header[|header| - 1] == '\r' && line[|header|..] == "\n")))
  }

  /** A header, and lines of its table. */
  predicate Tabular(lines: seq<string>, header: string) {
    lines != [] && Heads(lines[0], header) && forall k | 1 <= k < |lines| :: Calm(lines[k])
  }

  /** Lines that can be continued: the last one sets nothing, or is complete. */
  predicate Open(lines: seq<string>) {
    lines != [] && var last := lines[|lines| - 1]; EndsWithNewline(last) || Setting(last) == None
  }

  lemma OpensThen(line: string, newline: string)
    requires IsNewline(newline)
    ensures Opens(line + newline) == Opens(line)
  {
    if Blanks(line) < |line| {
      BlanksThen(line, newline);
    } else {
      AllBlank(line, newline);
    }
  }

  lemma CalmThen(line: string, newline: string)
    requires Calm(line) && IsNewline(newline)
    ensures Calm(line + newline)
  {
    OpensThen(line, newline);
    SettingThen(line, newline);
    if Setting(line).Some? {
      SettingLong(line[Blanks(line)..]);
      BlanksThen(line, newline);
      assert Indent(line + newline) == Indent(line);
    }
  }

  lemma CalmNewline(newline: string)
    requires IsNewline(newline)
    ensures Calm(newline) && SplitLines(newline) == [newline]
  {
    NewlinePlain(newline);
    NewlineLine(newline);
    SplitLine(newline);
    AllBlank(newline, "");
    assert newline + "" == newline;
  }

  /** The last character of what is searched for a token does not matter, if it is a return. */
  lemma ExpectThen(s: string, token: string)
    requires token != "" && '\r' !in token
    ensures Expect(s + "\r", token).Some? <==> Expect(s, token).Some?
    ensures Expect(s, token).Some? ==> Expect(s + "\r", token).value == Expect(s, token).value + "\r"
  {
    var n := Blanks(s);
    if n < |s| {
      BlanksThen(s, "\r");
      var rest := s[n..];
      assert (s + "\r")[n..] == rest + "\r";
      PrefixThen(rest, token);
      if token <= rest {
        assert (rest + "\r")[|token|..] == rest[|token|..] + "\r";
      }
    } else {
      AllBlank(s, "\r");
      assert "\r"[1..] == "";
    }
  }

  lemma PrefixThen(s: string, token: string)
    requires '\r' !in token
    ensures token <= s + "\r" <==> token <= s
  {
    if token <= s + "\r" {
      assert (s + "\r")[|s|] == '\r';
      assert forall k | 0 <= k < |token| :: token[k] == (s + "\r")[k];
    }
    assert token <= s ==> token <= s + "\r";
  }

  lemma TrailingThen(s: string)
    requires Trailing(s + "\r")
    ensures Trailing(s)
  {
    if Blanks(s) < |s| {
      BlanksThen(s, "\r");
    }
  }

  lemma ExpectAnyThen(s: string, first: string, second: string, third: string)
    requires first != "" && second != "" && third != "" && '\r' !in first && '\r' !in second && '\r' !in third
    ensures ExpectAny(s + "\r", first, second, third).Some? <==> ExpectAny(s, first, second, third).Some?
    ensures ExpectAny(s, first, second, third).Some? ==>
              ExpectAny(s + "\r", first, second, third).value == ExpectAny(s, first, second, third).value + "\r"
  {
    ExpectThen(s, first);
    ExpectThen(s, second);
    ExpectThen(s, third);
  }

  lemma BracketedThen(s: string)
    ensures Bracketed(s + "\r") ==> Bracketed(s)
  {
    ExpectThen(s, "]");
    if Bracketed(s + "\r") {
      TrailingThen(Expect(s, "]").value);
    }
  }

  lemma NamedThen(s: string)
    ensures Named(s + "\r") ==> Named(s)
  {
    ExpectAnyThen(s, "codex-workbench", "\"codex-workbench\"", "'codex-workbench'");
    if Named(s + "\r") {
      BracketedThen(ExpectName(s).value);
    }
  }

  lemma DottedThen(s: string)
    ensures Dotted(s + "\r") ==> Dotted(s)
  {
    ExpectThen(s, ".");
    if Dotted(s + "\r") {
      NamedThen(Expect(s, ".").value);
    }
  }

  lemma NestedThen(s: string)
    ensures Nested(s + "\r") ==> Nested(s)
  {
    ExpectThen(s, "mcp_servers");
    if Nested(s + "\r") {
      DottedThen(Expect(s, "mcp_servers").value);
    }
  }

  lemma RegistrationThen(s: string)
    ensures IsRegistration(s + "\r") ==> IsRegistration(s)
  {
    ExpectThen(s, "[");
    if IsRegistration(s + "\r") {
      NestedThen(Expect(s, "[").value);
    }
  }

  /** A newline after a header, or the second half of one, leaves it a header. */
  lemma HeaderThen(line: string, newline: string)
    requires IsHeader(line) && IsLine(line) && IsNewline(newline)
    requires !Ended(line) || (line[|line| - 1] == '\r' && newline == "\n")
    ensures IsHeader(line + newline)
  {
    WithoutThen(line, newline);
    if Ended(line) {
      RegistrationThen(line[..|line| - 1]);
    }
  }

  lemma WithoutThen(line: string, newline: string)
    requires IsLine(line) && IsNewline(newline)
    requires !Ended(line) || (line[|line| - 1] == '\r' && newline == "\n")
    ensures WithoutNewline(line) == line
    ensures WithoutNewline(line + newline) == if Ended(line) then line[..|line| - 1] else line
    ensures Ended(line) ==> line == line[..|line| - 1] + "\r"
  {
    var l := line + newline;
    assert EndsWithNewline(l);
    assert newline == "\n" ==> (EndsWithReturnNewline(l) <==> Ended(line));
  }

  lemma HeaderOpens(line: string)
    requires IsHeader(line)
    ensures Opens(line) && Setting(line) == None
  {
    RegistrationOpens(WithoutNewline(line));
    OpensWithout(line);
    OpensSetsNothing(line);
  }

  lemma OpensWithout(line: string)
    requires Opens(WithoutNewline(line))
    ensures Opens(line)
  {
    var s := WithoutNewline(line);
    BlanksThen(s, line[|s|..]);
    assert line == s + line[|s|..];
  }

  lemma RegistrationOpens(s: string)
    requires IsRegistration(s)
    ensures Opens(s)
  {
    ExpectOpens(s);
  }

  lemma ExpectOpens(s: string)
    ensures Expect(s, "[").Some? ==> Opens(s)
  {
    var rest := s[Blanks(s)..];
    assert "[" <= rest ==> rest[0] == '[';
  }

  lemma OpensSetsNothing(line: string)
    requires Opens(line)
    ensures Setting(line) == None
  {
    var s := line[Blanks(line)..];
    assert s[0] == '[';
    NameChars(Name(StartupSec), StartupSec);
    Differ(s, Name(StartupSec), 0);
    Differ(s, Name(StartupMs), 0);
    Differ(s, Name(ToolSec), 0);
  }

  lemma HeadCalm(indent: string, key: Key, tail: string)
    requires forall k | 0 <= k < |indent| :: IsSpace(indent[k])
    requires key != StartupMs && (tail == "" || tail[0] == ' ' || IsBreak(tail[0]))
    ensures Calm(Head(indent, key) + tail)
  {
    var line := Head(indent, key) + tail;
    HeadSets(indent, key, tail);
    assert Head(indent, key) <= line;
    HeadIsName(indent, key, tail);
  }

  lemma HeadIsName(indent: string, key: Key, tail: string)
    requires forall k | 0 <= k < |indent| :: IsSpace(indent[k])
    ensures !Opens(Head(indent, key) + tail)
  {
    var s := Name(key) + (" = " + (Value(key) + tail));
    NameChars(s, key);
    SettingAt(indent, s);
    Regroup(indent, Name(key), " = ", Value(key), tail);
    AllBlank(indent, s);
    assert (indent + s)[|indent|] == s[0];
  }

  /** A table with more calm lines is a table, be its last line cut or completed by them; what
      either sets, it sets. */
  lemma TableGrows(header: string, a: string, b: string, key: Key)
    requires Tabular(SplitLines(a), header) && AllCalm(SplitLines(b)) && Open(SplitLines(b))
    requires a != "" && (Ended(a) || IsNewline(b))
    ensures Tabular(SplitLines(a + b), header) && Open(SplitLines(a + b))
    ensures Has(SplitLines(a), key) || Has(SplitLines(b), key) ==> Has(SplitLines(a + b), key)
  {
    if CleanCut(a, b) {
      SplitConcat(a, b);
      CleanTabular(header, SplitLines(a), SplitLines(b));
      HasConcat(SplitLines(a), SplitLines(b), key);
    } else {
      var before, line, c, after := UncleanPieces(a, b);
      UncleanLists(header, SplitLines(a), SplitLines(b), SplitLines(a + b), before, line, c, after, key);
    }
  }

  lemma CleanTabular(header: string, a: seq<string>, b: seq<string>)
    requires Tabular(a, header) && AllCalm(b) && Open(b)
    ensures Tabular(a + b, header) && Open(a + b)
  {
    assert (a + b)[|a + b| - 1] == b[|b| - 1];
  }

  lemma HasConcat(a: seq<string>, b: seq<string>, key: Key)
    ensures Has(a + b, key) <==> Has(a, key) || Has(b, key)
  {
    if Has(a, key) {
      var k :| 0 <= k < |a| && Setting(a[k]) == Some(key);
      assert Setting((a + b)[k]) == Some(key);
    }
    if Has(b, key) {
      var k :| 0 <= k < |b| && Setting(b[k]) == Some(key);
      assert Setting((a + b)[|a| + k]) == Some(key);
    }
    if Has(a + b, key) {
      var k :| 0 <= k < |a + b| && Setting((a + b)[k]) == Some(key);
      assert if k < |a| then Setting(a[k]) == Some(key) else Setting(b[k - |a|]) == Some(key);
    }
  }

  lemma UncleanEnd(a: string, b: string)
    requires a != "" && !CleanCut(a, b) && (Ended(a) || IsNewline(b))
    ensures var line, c := LastLine(a), Completion(a, b);
            line != "" && (!Ended(line) || (line[|line| - 1] == '\r' && c == "\n"))
  {
    SplitThen(a, b);
  }

  lemma UncleanPieces(a: string, b: string) returns (before: seq<string>, line: string, c: string, after: seq<string>)
    requires a != "" && !CleanCut(a, b) && (Ended(a) || IsNewline(b))
    ensures SplitLines(a) == before + [line] && SplitLines(b) == [c] + after
    ensures SplitLines(a + b) == before + ([line + c] + after)
    ensures line != "" && IsNewline(c) && (!Ended(line) || (line[|line| - 1] == '\r' && c == "\n"))
  {
    before, line, c := LinesBeforeLast(a), LastLine(a), Completion(a, b);
    after := SplitLines(b[|c|..]);
    SplitUnclean(a, b);
    UncleanEnd(a, b);
    SplitEnd(a);
  }

  lemma UncleanLists(header: string, a: seq<string>, b: seq<string>, both: seq<string>,
                     before: seq<string>, line: string, c: string, after: seq<string>, key: Key)
    requires Tabular(a, header) && AllCalm(b) && Open(b)
    requires a == before + [line] && b == [c] + after && both == before + ([line + c] + after)
    requires line != "" && IsNewline(c) && (!Ended(line) || (line[|line| - 1] == '\r' && c == "\n"))
    ensures Tabular(both, header) && Open(both)
    ensures Has(a, key) || Has(b, key) ==> Has(both, key)
  {
    CompletedTabular(header, before, line, c, after);
    CompletedHas(before, line, c, after, key);
  }

  lemma CompletedTabular(header: string, before: seq<string>, line: string, c: string, after: seq<string>)
    requires Tabular(before + [line], header) && AllCalm([c] + after) && Open([c] + after)
    requires line != "" && IsNewline(c) && (!Ended(line) || (line[|line| - 1] == '\r' && c == "\n"))
    ensures Tabular(before + ([line + c] + after), header) && Open(before + ([line + c] + after))
  {
    var lines, completed := before + [line], before + ([line + c] + after);
    assert lines[|before|] == line && completed[|before|] == line + c;
    if before == [] {
      HeadsThen(line, header, c);
    } else {
      CalmThen(line, c);
      assert completed[0] == lines[0] == before[0];
    }
    CompletedCalm(before, line, c, after);
    CompletedOpen(before, line, c, after);
  }

  lemma HeadsThen(line: string, header: string, c: string)
    requires Heads(line, header) && line != "" && IsNewline(c)
    requires !Ended(line) || (line[|line| - 1] == '\r' && c == "\n")
    ensures Heads(line + c, header)
  {
    if line != header {
      HeadsEnd(line, header);
    }
    assert (line + c)[|line|..] == c;
  }

  lemma HeadsEnd(line: string, header: string)
    requires Heads(line, header) && line != header
    ensures EndsWithNewline(line)
  {
    var rest := line[|header|..];
    assert line[|line| - 1] == rest[|rest| - 1] == '\n';
  }

  lemma CompletedOpen(before: seq<string>, line: string, c: string, after: seq<string>)
    requires Open([c] + after) && IsNewline(c)
    ensures Open(before + ([line + c] + after))
  {
    var lines := before + ([line + c] + after);
    if after == [] {
      assert lines[|lines| - 1] == line + c;
      assert (line + c)[|line + c| - 1] == c[|c| - 1] == '\n';
    } else {
      assert lines[|lines| - 1] == ([c] + after)[|after|];
    }
  }

  lemma CompletedCalm(before: seq<string>, line: string, c: string, after: seq<string>)
    requires forall k | 1 <= k < |before + [line]| :: Calm((before + [line])[k])
    requires AllCalm([c] + after) && (before != [] ==> Calm(line + c))
    ensures var lines := before + ([line + c] + after); forall k | 1 <= k < |lines| :: Calm(lines[k])
  {
    var lines := before + ([line + c] + after);
    forall k | 1 <= k < |lines|
      ensures Calm(lines[k])
    {
      if k < |before| {
        assert lines[k] == (before + [line])[k];
      } else if k > |before| {
        assert lines[k] == ([c] + after)[k - |before|];
      }
    }
  }

  lemma CompletedHas(before: seq<string>, line: string, c: string, after: seq<string>, key: Key)
    requires IsNewline(c)
    ensures Has(before + [line], key) || Has([c] + after, key) ==> Has(before + ([line + c] + after), key)
  {
    SettingThen(line, c);
    NewlinePlain(c);
    HasConcat(before, [line], key);
    HasConcat([c], after, key);
    HasConcat([line + c], after, key);
    HasConcat(before, [line + c] + after, key);
    assert [line + c][0] == line + c;
  }

  /** What the loop writes for a timeout: a line that sets it, and perhaps a newline more. */
  lemma RewrittenCalm(line: string, key: Key, default: string)
    requires IsLine(line) && Setting(line) == Some(key) && key != StartupMs && IsNewline(default)
    ensures var w := Rewritten(line, key, default);
            EndsWithNewline(w) && AllCalm(SplitLines(w)) && Open(SplitLines(w)) && Has(SplitLines(w), key)
  {
    var indent, c, e := RewrittenParts(line, key, default);
    if Grows(line, default) {
      GrownAgain(indent, key, c, e, default);
      GrownCalm(indent, key, c, e);
    } else {
      SettledAgain(indent, key, c, e, default);
      SplitLine(Head(indent, key) + (c + e));
      SettledCalm(indent, key, c + e);
    }
  }

  lemma GrownCalm(indent: string, key: Key, c: string, e: string)
    requires forall k | 0 <= k < |indent| :: IsSpace(indent[k])
    requires key != StartupMs && IsComment(c) && |c| >= 2 && IsNewline(e)
    ensures var lines := [Head(indent, key) + c, e]; AllCalm(lines) && Open(lines) && Has(lines, key)
  {
    HeadCalm(indent, key, c);
    HeadSets(indent, key, c);
    CalmNewline(e);
    NewlinePlain(e);
    TwoCalm(Head(indent, key) + c, e, key);
  }

  lemma TwoCalm(line: string, newline: string, key: Key)
    requires Calm(line) && Calm(newline) && Setting(line) == Some(key) && Setting(newline) == None
    ensures var lines := [line, newline]; AllCalm(lines) && Open(lines) && Has(lines, key)
  {
    TwoHave(line, newline, key);
    TwoAllCalm(line, newline);
    TwoOpen(line, newline);
  }

  lemma TwoAllCalm(line: string, newline: string)
    requires Calm(line) && Calm(newline)
    ensures AllCalm([line, newline])
  {
  }

  lemma TwoOpen(line: string, newline: string)
    requires Setting(newline) == None
    ensures Open([line, newline])
  {
  }

  lemma TwoHave(line: string, newline: string, key: Key)
    requires Setting(line) == Some(key)
    ensures Has([line, newline], key)
  {
    assert [line, newline][0] == line;
  }

  lemma SettledCalm(indent: string, key: Key, tail: string)
    requires forall k | 0 <= k < |indent| :: IsSpace(indent[k])
    requires key != StartupMs && EndsWithNewline(tail) && (tail[0] == ' ' || IsBreak(tail[0]))
    ensures var lines := [Head(indent, key) + tail]; AllCalm(lines) && Open(lines) && Has(lines, key)
  {
    HeadCalm(indent, key, tail);
    HeadSets(indent, key, tail);
    EndOf(Head(indent, key), tail);
    OneCalm(Head(indent, key) + tail, key);
  }

  lemma EndOf(a: string, b: string)
    requires EndsWithNewline(b)
    ensures EndsWithNewline(a + b)
  {
  }

  lemma OneCalm(line: string, key: Key)
    requires Calm(line) && Setting(line) == Some(key) && EndsWithNewline(line)
    ensures AllCalm([line]) && Open([line]) && Has([line], key)
  {
    HasOne(line, key);
  }

  /** A table so far; `has` holds only if it sets the timeout. */
  ghost predicate TableText(header: string, text: string, key: Key, has: bool) {
    text != "" && var lines := SplitLines(text); Tabular(lines, header) && Open(lines) && (has ==> Has(lines, key))
  }

  /** The body of the table, edited, after what is a table so far. */
  lemma {:induction false} TabularEdited(header: string, x: string, lines: seq<string>, default: string, key: Key,
                                         has: bool)
    requires TableText(header, x, key, has) && (lines != [] ==> Ended(x))
    requires AreLines(lines) && (forall k | 0 <= k < |lines| :: !Opens(lines[k])) && IsNewline(default)
    ensures TableText(header, x + Edited(lines, default), key, has || Seen(lines, key))
    decreases |lines|
  {
    if lines == [] {
      assert x + "" == x;
    } else {
      var line, rest := lines[0], lines[1..];
      var w := EditedLine(line, default);
      LineAdded(header, x, line, default, key, has);
      EditedRest(x, lines, default);
      SeenFirst(lines, key);
      TabularEdited(header, x + w, rest, default, key, has || Setting(line) == Some(key) != Some(StartupMs));
    }
  }

  lemma EditedRest(x: string, lines: seq<string>, default: string)
    requires lines != []
    ensures x + Edited(lines, default) == (x + EditedLine(lines[0], default)) + Edited(lines[1..], default)
  {
    Associate(x, EditedLine(lines[0], default), Edited(lines[1..], default));
  }

  lemma SeenFirst(lines: seq<string>, key: Key)
    requires lines != []
    ensures Seen(lines, key) <==> Setting(lines[0]) == Some(key) != Some(StartupMs) || Seen(lines[1..], key)
  {
    var first := [lines[0]];
    assert lines == first + lines[1..];
    HasConcat(first, lines[1..], key);
    HasOne(lines[0], key);
  }

  lemma HasOne(line: string, key: Key)
    ensures Has([line], key) <==> Setting(line) == Some(key)
  {
    assert [line][0] == line;
  }

  lemma LineAdded(header: string, x: string, line: string, default: string, key: Key, has: bool)
    requires TableText(header, x, key, has) && Ended(x)
    requires IsLine(line) && !Opens(line) && IsNewline(default)
    ensures TableText(header, x + EditedLine(line, default), key, has || Setting(line) == Some(key) != Some(StartupMs))
    ensures Ended(line) ==> Ended(x + EditedLine(line, default))
  {
    match Setting(line)
    case None =>
      PlainAdded(header, x, line, key, has);
    case Some(StartupMs) =>
      assert x + "" == x;
    case Some(k) =>
      SettingAdded(header, x, line, k, default, key, has);
  }

  lemma PlainAdded(header: string, x: string, line: string, key: Key, has: bool)
    requires TableText(header, x, key, has) && Ended(x)
    requires IsLine(line) && !Opens(line) && Setting(line) == None
    ensures TableText(header, x + line, key, has) && (Ended(line) ==> Ended(x + line))
  {
    SplitLine(line);
    MoreText(header, x, line, key, has);
  }

  lemma SettingAdded(header: string, x: string, line: string, k: Key, default: string, key: Key, has: bool)
    requires TableText(header, x, key, has) && Ended(x)
    requires IsLine(line) && Setting(line) == Some(k) && k != StartupMs && IsNewline(default)
    ensures var y := x + Rewritten(line, k, default); TableText(header, y, key, has || k == key) && Ended(y)
  {
    var w := Rewritten(line, k, default);
    RewrittenCalm(line, k, default);
    MoreText(header, x, w, key, has);
    EndOf(x, w);
  }

  lemma MoreText(header: string, x: string, w: string, key: Key, has: bool)
    requires TableText(header, x, key, has) && (Ended(x) || IsNewline(w))
    requires AllCalm(SplitLines(w)) && Open(SplitLines(w))
    ensures TableText(header, x + w, key, has || Has(SplitLines(w), key))
  {
    TableGrows(header, x, w, key);
  }

  /** A table as it is found: a header, then lines that open no other. */
  predicate FoundTable(table: seq<string>) {
    && AreLines(table) && table != [] && Setting(table[0]) == None
    && forall k | 1 <= k < |table| :: !Opens(table[k])
  }

  lemma EditedTableText(table: seq<string>, default: string, key: Key)
    requires FoundTable(table) && IsNewline(default)
    ensures TableText(table[0], table[0] + Edited(table[1..], default), key, Seen(table[1..], key))
  {
    HeaderText(table[0], key);
    BodyLines(table, table[1..]);
    TabularEdited(table[0], table[0], table[1..], default, key, false);
  }

  lemma HeaderText(header: string, key: Key)
    requires IsLine(header) && Setting(header) == None
    ensures TableText(header, header, key, false)
  {
    SplitLine(header);
  }

  lemma BodyLines(table: seq<string>, body: seq<string>)
    requires FoundTable(table) && body == table[1..]
    ensures AreLines(body) && (forall k | 0 <= k < |body| :: !Opens(body[k])) && (body != [] ==> Ended(table[0]))
  {
    assert forall k | 0 <= k < |body| :: body[k] == table[k + 1];
  }

  lemma ClosedTableText(header: string, x: string, default: string, key: Key, has: bool)
    requires TableText(header, x, key, has) && IsNewline(default)
    ensures TableText(header, Closed(x, default), key, has) && IsClosed(Closed(x, default))
  {
    if !IsClosed(x) {
      CalmNewline(default);
      NewlinePlain(default);
      MoreText(header, x, default, key, has);
      assert Closed(x, default)[|x + default| - 1] == default[|default| - 1];
    }
  }

  lemma AdditionLine(key: Key, default: string)
    requires key != StartupMs && IsNewline(default)
    ensures var w := Head("", key) + default;
            SplitLines(w) == [w] && AllCalm([w]) && Open([w]) && Has([w], key) && IsClosed(w)
  {
    assert default == "" + default;
    SettledAgain("", key, "", default, default);
    SplitLine(Head("", key) + default);
    assert default[|default| - 1] == '\n';
    SettledCalm("", key, default);
  }

  lemma AdditionAgain(key: Key, default: string, other: string)
    requires key != StartupMs && IsNewline(default)
    ensures EditedFurther(Head("", key) + default, other, false)
  {
    assert default == "" + default;
    SettledAgain("", key, "", default, other);
  }

  lemma AddedTableText(header: string, x: string, lines: seq<string>, added: Key, default: string, key: Key, has: bool)
    requires TableText(header, x, key, has) && IsClosed(x) && IsNewline(default) && added != StartupMs
    ensures var y := x + Addition(lines, added, default);
            TableText(header, y, key, has || (key == added && !Seen(lines, key))) && IsClosed(y)
  {
    if Seen(lines, added) {
      assert x + "" == x;
    } else {
      AdditionLine(added, default);
      MoreText(header, x, Head("", added) + default, key, has);
    }
  }

  /** The table after the update sets both timeouts, to their fixed values. */
  lemma UpdatedTableText(table: seq<string>, default: string, key: Key)
    requires FoundTable(table) && IsNewline(default) && key != StartupMs
    ensures var text := Table(table[0], table[1..], default); TableText(table[0], text, key, true) && IsClosed(text)
  {
    var header, body := table[0], table[1..];
    var x := header + Edited(body, default);
    var closed := Closed(x, default);
    var has := Seen(body, key);
    EditedTableText(table, default, key);
    ClosedTableText(header, x, default, key, has);
    AddedTableText(header, closed, body, StartupSec, default, key, has);
    AddedTableText(header, closed + Addition(body, StartupSec, default), body, ToolSec, default, key,
                   has || key == StartupSec);
  }

  /** Editing the updated table once more leaves it as it is, unless a line of the first grows. */
  lemma UpdatedTableAgain(table: seq<string>, first: string, second: string)
    requires FoundTable(table) && SplitLines(Join(table)) == table && IsNewline(first) && IsNewline(second)
    ensures EditedFurther(Table(table[0], table[1..], first), second, SomeGrow(table, first))
  {
    var header, body := table[0], table[1..];
    var x := header + Edited(body, first);
    var grows := SomeGrow(table, first);
    EditedAgain(Join(table), first, second);
    assert Edited(table, first) == x;
    EditedTableText(table, first, StartupSec);
    ClosedAgain(header, x, first, second, grows);
    ClosedTableText(header, x, first, StartupSec, false);
    AddedAgain(Closed(x, first), body, StartupSec, first, second, grows);
    AddedAgain(Closed(x, first) + Addition(body, StartupSec, first), body, ToolSec, first, second, grows);
  }

  lemma ClosedAgain(header: string, x: string, first: string, second: string, grows: bool)
    requires x != "" && Open(SplitLines(x)) && EditedFurther(x, second, grows) && IsNewline(first)
    ensures EditedFurther(Closed(x, first), second, grows)
  {
    if !IsClosed(x) {
      SplitThen(x, first);
      NewlineAlone(first, second);
      EditAfterPlain(x, first, second);
      FurtherConcat(x, first, second, grows, false);
    }
  }

  lemma NewlineAlone(newline: string, default: string)
    requires IsNewline(newline)
    ensures EditedFurther(newline, default, false)
  {
    CalmNewline(newline);
    NewlinePlain(newline);
    EditedOne(newline, default);
  }

  lemma AddedAgain(x: string, lines: seq<string>, added: Key, first: string, second: string, grows: bool)
    requires IsClosed(x) && EditedFurther(x, second, grows) && IsNewline(first) && added != StartupMs
    ensures var y := x + Addition(lines, added, first); EditedFurther(y, second, grows) && IsClosed(y)
  {
    if Seen(lines, added) {
      assert x + "" == x;
    } else {
      AdditionClosed(added, first);
      AdditionAgain(added, first, second);
      EditConcat(x, Head("", added) + first, second);
      FurtherConcat(x, Head("", added) + first, second, grows, false);
    }
  }

  lemma AdditionClosed(key: Key, default: string)
    requires IsNewline(default)
    ensures var w := Head("", key) + default; w != "" && w[0] != '\n' && IsClosed(w)
  {
    var w := Head("", key) + default;
    NameChars(Name(key), key);
    assert w[0] == Name(key)[0];
    assert w[|w| - 1] == default[|default| - 1];
  }

  lemma {:induction false} LinesAre(text: string)
    ensures AreLines(SplitLines(text))
    decreases |text|
  {
    if text != "" {
      var first, rest := text[..LineLength(text)], text[LineLength(text)..];
      SplitStep(text, first, rest);
      LinesAre(rest);
      LinesFirst(first, SplitLines(rest));
      assert rest == "" ==> SplitLines(rest) == [];
    }
  }

  lemma LinesFirst(first: string, rest: seq<string>)
    requires IsLine(first) && AreLines(rest) && (rest != [] ==> Ended(first))
    ensures AreLines([first] + rest)
  {
    assert forall k | 1 <= k < |[first] + rest| :: ([first] + rest)[k] == rest[k - 1];
  }

  /** A header sets nothing, and stays one when it is completed. */
  ghost predicate Sensible(isHeader: string -> bool) {
    && (forall line | isHeader(line) :: Setting(line) == None)
    && (forall line, header | Heads(line, header) && IsLine(header) && isHeader(header) :: isHeader(line))
  }

  lemma HeadersSensible()
    ensures Sensible(IsHeader)
  {
    forall line | IsHeader(line)
      ensures Setting(line) == None
    {
      HeaderOpens(line);
    }
    forall line, header | Heads(line, header) && IsLine(header) && IsHeader(header)
      ensures IsHeader(line)
    {
      HeaderCompleted(line, header);
    }
  }

  lemma HeaderCompleted(line: string, header: string)
    requires Heads(line, header) && IsLine(header) && IsHeader(header)
    ensures IsHeader(line)
  {
    if line != header {
      Completed(line, header, line[|header|..]);
      HeaderThen(header, line[|header|..]);
    }
  }

  lemma Completed(line: string, header: string, rest: string)
    requires header <= line && rest == line[|header|..]
    ensures line == header + rest
  {
  }

  /** The parts of a configuration, as they stand in it. */
  ghost predicate Standing(parts: Parts) {
    && FoundTable(parts.table) && SplitLines(Join(parts.table)) == parts.table
    && SplitLines(Join(parts.before)) == parts.before && SplitLines(Join(parts.after)) == parts.after
    && (parts.before != [] ==> CleanCut(Join(parts.before), parts.table[0]))
    && (parts.after != [] ==> Join(parts.after) != "" && Join(parts.after)[0] != '\n')
  }

  lemma PartsStand(text: string, isHeader: string -> bool)
    requires Sensible(isHeader) && PartsWith(text, isHeader).Some?
    ensures Standing(PartsWith(text, isHeader).value)
  {
    var lines := SplitLines(text);
    var start := First(lines, 0, isHeader);
    var end := First(lines, start + 1, Opens);
    LinesAre(text);
    BeforeStands(text, lines, start);
    TableStands(text, lines, start, end);
    AfterStands(text, lines, end);
  }

  lemma BeforeStands(text: string, lines: seq<string>, start: nat)
    requires lines == SplitLines(text) && AreLines(lines) && start < |lines|
    ensures SplitLines(Join(lines[..start])) == lines[..start]
    ensures start > 0 ==> CleanCut(Join(lines[..start]), lines[start])
  {
    SplitAt(text, start);
    FirstOf(lines[start..]);
  }

  lemma TableStands(text: string, lines: seq<string>, start: nat, end: nat)
    requires lines == SplitLines(text) && AreLines(lines) && start < end <= |lines|
    requires Setting(lines[start]) == None && forall k | start < k < end :: !Opens(lines[k])
    ensures FoundTable(lines[start..end]) && SplitLines(Join(lines[start..end])) == lines[start..end]
  {
    SliceSplit(text, lines, start, end);
    SliceFound(lines, lines[start..end], start, end);
  }

  lemma SliceSplit(text: string, lines: seq<string>, start: nat, end: nat)
    requires lines == SplitLines(text) && start < end <= |lines|
    ensures SplitLines(Join(lines[start..end])) == lines[start..end]
  {
    SplitAt(text, start);
    SplitAt(Join(lines[start..]), end - start);
    assert lines[start..][..end - start] == lines[start..end];
  }

  lemma SliceFound(lines: seq<string>, table: seq<string>, start: nat, end: nat)
    requires AreLines(lines) && start < end <= |lines| && table == lines[start..end]
    requires Setting(lines[start]) == None && forall k | start < k < end :: !Opens(lines[k])
    ensures FoundTable(table)
  {
    assert forall k | 0 <= k < |table| :: table[k] == lines[start + k];
  }

  lemma AfterStands(text: string, lines: seq<string>, end: nat)
    requires lines == SplitLines(text) && AreLines(lines) && end <= |lines|
    requires end < |lines| ==> Opens(lines[end])
    ensures SplitLines(Join(lines[end..])) == lines[end..]
    ensures end < |lines| ==> Join(lines[end..]) != "" && Join(lines[end..])[0] != '\n'
  {
    SplitAt(text, end);
    if end < |lines| {
      FirstOf(lines[end..]);
      OpensFirst(lines[end]);
    }
  }

  lemma FirstOf(lines: seq<string>)
    requires lines != [] && lines[0] != ""
    ensures Join(lines) != "" && Join(lines)[0] == lines[0][0]
  {
  }

  lemma OpensFirst(line: string)
    requires IsLine(line) && Opens(line)
    ensures line[0] != '\n'
  {
    assert line[0] == '\n' ==> LineLength(line) == 1;
  }

  lemma SplitOrEmpty(a: string, b: string)
    requires a == "" || b == "" || CleanCut(a, b)
    ensures SplitLines(a + b) == SplitLines(a) + SplitLines(b)
  {
    if a == "" {
      assert a + b == b;
    } else if b == "" {
      assert a + b == a;
    } else {
      SplitConcat(a, b);
    }
  }

  lemma SplitThree(a: string, b: string, c: string)
    requires b != "" && (a == "" || CleanCut(a, b)) && (c == "" || CleanCut(b, c))
    ensures SplitLines(a + b + c) == SplitLines(a) + SplitLines(b) + SplitLines(c)
  {
    SplitOrEmpty(a, b);
    assert (a + b)[|a + b| - 1] == b[|b| - 1];
    SplitOrEmpty(a + b, c);
  }

  /** A text put together around a table reads back as its parts. */
  lemma SplitAround(parts: Parts, table: string)
    requires Standing(parts) && IsClosed(table) && parts.table[0] != "" && table[0] == parts.table[0][0]
    ensures SplitLines(Join(parts.before) + table + Join(parts.after)) == parts.before + SplitLines(table) + parts.after
  {
    SplitThree(Join(parts.before), table, Join(parts.after));
  }

  /** The first wanted line, recognized. */
  lemma {:induction false} FirstIs(lines: seq<string>, i: nat, wanted: string -> bool, r: nat)
    requires i <= r <= |lines| && (forall k | i <= k < r :: !wanted(lines[k])) && (r < |lines| ==> wanted(lines[r]))
    ensures First(lines, i, wanted) == r
    decreases |lines| - i
  {
    if i < r {
      FirstIs(lines, i + 1, wanted, r);
    }
  }

  lemma FoundAgain(before: seq<string>, table: seq<string>, after: seq<string>, text: string, isHeader: string -> bool)
    requires SplitLines(text) == before + table + after && table != []
    requires (forall k | 0 <= k < |before| :: !isHeader(before[k])) && isHeader(table[0])
    requires (forall k | 1 <= k < |table| :: !Opens(table[k])) && (after != [] ==> Opens(after[0]))
    ensures PartsWith(text, isHeader) == Some(Parts(before, table, after))
  {
    var lines := before + table + after;
    FirstIs(lines, 0, isHeader, |before|);
    FirstIs(lines, |before| + 1, Opens, |before| + |table|);
    assert lines[..|before|] == before && lines[|before|..|before| + |table|] == table;
    assert lines[|before| + |table|..] == after;
  }

  lemma PartsFound(text: string, isHeader: string -> bool)
    requires PartsWith(text, isHeader).Some?
    ensures var p := PartsWith(text, isHeader).value;
            && isHeader(p.table[0]) && (forall k | 0 <= k < |p.before| :: !isHeader(p.before[k]))
            && (p.after != [] ==> Opens(p.after[0]))
  {
  }

  lemma NewTable(table: seq<string>, default: string)
    requires FoundTable(table) && IsNewline(default)
    ensures var text := Table(table[0], table[1..], default);
            && IsClosed(text) && text[0] == table[0][0]
            && Tabular(SplitLines(text), table[0])
            && Has(SplitLines(text), StartupSec) && Has(SplitLines(text), ToolSec)
  {
    UpdatedTableText(table, default, StartupSec);
    UpdatedTableText(table, default, ToolSec);
  }

  lemma UpdatedReads(text: string, isHeader: string -> bool, default: string)
    requires Sensible(isHeader) && PartsWith(text, isHeader).Some? && IsNewline(default)
    ensures var p := PartsWith(text, isHeader).value;
            var table := SplitLines(Table(p.table[0], p.table[1..], default));
            && PartsWith(Updated(p, default), isHeader) == Some(Parts(p.before, table, p.after))
            && Tabular(table, p.table[0]) && Has(table, StartupSec) && Has(table, ToolSec)
  {
    var p := PartsWith(text, isHeader).value;
    var table := Table(p.table[0], p.table[1..], default);
    PartsStand(text, isHeader);
    PartsFound(text, isHeader);
    NewTable(p.table, default);
    SplitAround(p, table);
    FoundAgain(p.before, SplitLines(table), p.after, Updated(p, default), isHeader);
  }

  /** What follows the header of a table sets both timeouts, to their fixed values. */
  predicate SetsTimeouts(table: seq<string>) {
    && table != [] && AllCalm(table[1..])
    && forall key | key in {StartupSec, ToolSec} :: Has(table[1..], key)
  }

  lemma HasInBody(table: seq<string>, key: Key)
    requires table != [] && Setting(table[0]) == None && Has(table, key)
    ensures Has(table[1..], key)
  {
    var k :| 0 <= k < |table| && Setting(table[k]) == Some(key);
    assert Setting(table[1..][k - 1]) == Some(key);
  }

  lemma BodyCalm(table: seq<string>, header: string)
    requires Tabular(table, header)
    ensures AllCalm(table[1..])
  {
    assert forall k | 1 <= k < |table| :: table[1..][k - 1] == table[k];
  }

  /** An update changes no line outside the first Workbench table. In the table it leaves no
      timeout in milliseconds, and sets both others, wherever they stand, to their values. */
  lemma UpdateReads(text: string)
    requires PartsOf(text).Some?
    ensures var updated := WithTimeouts(text).value;
            && PartsOf(updated).Some?
            && var before, after := PartsOf(text).value, PartsOf(updated).value;
            after.before == before.before && after.after == before.after && SetsTimeouts(after.table)
  {
    var default := DefaultEnding(text);
    HeadersSensible();
    UpdatedReads(text, IsHeader, default);
    var p := PartsOf(text).value;
    var table := SplitLines(Table(p.table[0], p.table[1..], default));
    PartsFound(Updated(p, default), IsHeader);
    BodyCalm(table, p.table[0]);
    HasInBody(table, StartupSec);
    HasInBody(table, ToolSec);
  }

  lemma AgainTable(table: seq<string>, text: string, second: string, grows: bool)
    requires table == SplitLines(text) && table != [] && Setting(table[0]) == None && SetsTimeouts(table)
    requires EditedFurther(text, second, grows) && IsClosed(text)
    ensures var again := Table(table[0], table[1..], second);
            if grows then |again| > |text| else again == text
  {
    NothingAdded(table, second);
    EditedHeader(table, second);
    ClosedKeeps(EditedText(text, second), text, second, grows);
  }

  lemma NothingAdded(table: seq<string>, default: string)
    requires SetsTimeouts(table)
    ensures Table(table[0], table[1..], default) == Closed(table[0] + Edited(table[1..], default), default)
  {
    assert Has(table[1..], StartupSec) && Has(table[1..], ToolSec);
    var closed := Closed(table[0] + Edited(table[1..], default), default);
    assert closed + "" + "" == closed;
  }

  lemma EditedHeader(table: seq<string>, default: string)
    requires table != [] && Setting(table[0]) == None
    ensures table[0] + Edited(table[1..], default) == Edited(table, default)
  {
  }

  lemma ClosedKeeps(again: string, text: string, default: string, grows: bool)
    requires IsClosed(text) && if grows then |again| > |text| else again == text
    ensures if grows then |Closed(again, default)| > |text| else Closed(again, default) == text
  {
  }

  lemma Longer(before: string, a: string, b: string, after: string)
    ensures |a| > |b| ==> before + a + after != before + b + after
  {
    if |a| > |b| {
      assert |before + a + after| > |before + b + after|;
    }
  }

  /** A second update changes nothing, exactly if no timeout in the table carries a comment and
      ends at a break that is neither a newline nor completed to one. */
  lemma IdempotentUnlessGrowing(text: string)
    requires PartsOf(text).Some?
    ensures var updated := WithTimeouts(text).value;
            WithTimeouts(updated) == Some(updated) <==>
            !SomeGrow(PartsOf(text).value.table, DefaultEnding(text))
  {
    var first, p := DefaultEnding(text), PartsOf(text).value;
    var updated, table := WithTimeouts(text).value, Table(p.table[0], p.table[1..], first);
    var second, q := DefaultEnding(updated), SplitLines(table);
    HeadersSensible();
    PartsStand(text, IsHeader);
    NewTable(p.table, first);
    UpdatedReads(text, IsHeader, first);
    UpdateReads(text);
    PartsFound(updated, IsHeader);
    UpdatedTableAgain(p.table, first, second);
    AgainTable(q, table, second, SomeGrow(p.table, first));
    Longer(Join(p.before), Table(q[0], q[1..], second), table, Join(p.after));
  }

  lemma TokenFound(token: string, rest: string)
    requires token != "" && !IsSpace(token[0])
    ensures Expect(token + rest, token) == Some(rest)
  {
    assert Blanks(token + rest) == 0;
    assert (token + rest)[|token|..] == rest;
  }

  lemma BareHeader()
    ensures IsRegistration("[" + ("mcp_servers" + ("." + ("codex-workbench" + "]"))))
  {
    var named := "codex-workbench" + "]";
    assert Bracketed("]") by {
      TokenFound("]", "");
      assert "]" + "" == "]";
    }
    TokenFound("codex-workbench", "]");
    assert Named(named);
    TokenFound(".", named);
    assert Dotted("." + named);
    TokenFound("mcp_servers", "." + named);
    assert Nested("mcp_servers" + ("." + named));
    TokenFound("[", "mcp_servers" + ("." + named));
  }

  /** A growing line right after a header is a configuration that no update settles. */
  lemma GrowsOnce(header: string, line: string)
    requires IsHeader(header) && IsLine(header) && EndsWithNewline(header)
    requires IsLine(line) && !Opens(line) && line[0] != '\n'
    requires Grows(line, DefaultEnding(header + line))
    ensures PartsOf(header + line) == Some(Parts([], [header, line], []))
    ensures WithTimeouts(WithTimeouts(header + line).value) != WithTimeouts(header + line)
  {
    var text := header + line;
    assert PartsOf(text) == Some(Parts([], [header, line], [])) by {
      AloneFound(header, line, IsHeader);
    }
    SecondGrows(header, line, DefaultEnding(text));
    IdempotentUnlessGrowing(text);
  }

  lemma SecondGrows(header: string, line: string, default: string)
    requires Grows(line, default)
    ensures SomeGrow([header, line], default)
  {
    assert [header, line][1] == line;
  }

  lemma AloneFound(header: string, line: string, isHeader: string -> bool)
    requires isHeader(header) && IsLine(header) && EndsWithNewline(header)
    requires IsLine(line) && !Opens(line) && line[0] != '\n'
    ensures PartsWith(header + line, isHeader) == Some(Parts([], [header, line], []))
  {
    SplitClean(header, line);
    SplitLine(line);
    assert [] + [header, line] + [] == [header] + [line];
    FoundAgain([], [header, line], [], header + line, isHeader);
  }

  /** The bare header, and a timeout with a comment that ends at a form feed, are such lines. */
  lemma GrowthHappens(header: string, line: string)
    requires header == "[" + ("mcp_servers" + ("." + ("codex-workbench" + "]"))) + "\n"
    requires line == Head("", ToolSec) + " #\U{0c}"
    ensures WithTimeouts(header + line).Some?
    ensures WithTimeouts(WithTimeouts(header + line).value) != WithTimeouts(header + line)
  {
    HeaderFacts("[" + ("mcp_servers" + ("." + ("codex-workbench" + "]"))), header);
    LineFacts(line);
    GrowsOnce(header, line);
  }

  lemma HeaderFacts(s: string, header: string)
    requires s == "[" + ("mcp_servers" + ("." + ("codex-workbench" + "]"))) && header == s + "\n"
    ensures IsHeader(header) && IsLine(header) && EndsWithNewline(header)
  {
    BareHeader();
    BarePlain();
    WithoutLast(s, header);
    PlainThen(s, "\n");
  }

  lemma BarePlain()
    ensures Plain("[" + ("mcp_servers" + ("." + ("codex-workbench" + "]"))))
  {
    PlainConcat("codex-workbench", "]");
    PlainConcat(".", "codex-workbench" + "]");
    PlainConcat("mcp_servers", "." + ("codex-workbench" + "]"));
    PlainConcat("[", "mcp_servers" + ("." + ("codex-workbench" + "]")));
  }

  lemma WithoutLast(s: string, line: string)
    requires Plain(s) && line == s + "\n"
    ensures WithoutNewline(line) == s && EndsWithNewline(line)
  {
    assert |line| >= 2 ==> line[|line| - 2] == s[|s| - 1];
    assert line[..|line| - 1] == s;
  }

  lemma LineFacts(line: string)
    requires line == Head("", ToolSec) + " #\U{0c}"
    ensures IsLine(line) && !Opens(line) && line[0] != '\n' && Grows(line, "\n") && Grows(line, "\r\n")
  {
    var tail := " #\U{0c}";
    HeadPlain("", ToolSec);
    CommentLine(tail);
    PlainThen(Head("", ToolSec), tail);
    HeadSets("", ToolSec, tail);
    HeadIsName("", ToolSec, tail);
    assert line[|line| - 1] == tail[2] && line[|line| - 2] == tail[1] == '#';
  }

  method FindFirst(lines: seq<string>, i: nat, wanted: string -> bool) returns (r: nat)
    requires i <= |lines|
    ensures r == First(lines, i, wanted)
  {
    r := i;
    while r < |lines| && !wanted(lines[r])
      invariant i <= r <= |lines| && First(lines, i, wanted) == First(lines, r, wanted)
    {
      r := r + 1;
    }
  }

  lemma JoinTo(lines: seq<string>, k: nat)
    requires k < |lines|
    ensures Join(lines[..k + 1]) == Join(lines[..k]) + lines[k]
  {
    assert lines[..k + 1] == lines[..k] + [lines[k]];
    JoinConcat(lines[..k], [lines[k]]);
    JoinOne(lines[k]);
  }

  lemma LineSet(lines: seq<string>, index: nat, line: string)
    requires index < |lines|
    ensures var next := lines[index := line];
            Join(next[..index + 1]) == Join(lines[..index]) + line && next[index + 1..] == lines[index + 1..]
  {
    var next := lines[index := line];
    JoinTo(next, index);
    assert next[..index] == lines[..index];
  }

  function WithFound(seen: set<Key>, found: Option<Key>): set<Key> {
    if found.Some? && found != Some(StartupMs) then seen + {found.value} else seen
  }

  predicate SeenAre(seen: set<Key>, lines: seq<string>) {
    && (StartupSec in seen <==> Has(lines, StartupSec))
    && (ToolSec in seen <==> Has(lines, ToolSec))
  }

  lemma SeenMore(body: seq<string>, line: string, seen: set<Key>)
    requires SeenAre(seen, body)
    ensures SeenAre(WithFound(seen, Setting(line)), body + [line])
  {
    HasMore(body, line, StartupSec);
    HasMore(body, line, ToolSec);
  }

  lemma HasMore(body: seq<string>, line: string, key: Key)
    ensures Has(body + [line], key) <==> Has(body, key) || Setting(line) == Some(key)
  {
    HasConcat(body, [line], key);
    HasOne(line, key);
  }

  /** The lines `body` are edited: they, after `head`, now stand before `index`, and `rest`
      stands after. */
  ghost predicate Editing(head: string, body: seq<string>, rest: seq<string>, lines: seq<string>, index: nat,
                          default: string) {
    && 0 < index <= |lines| && lines[index - 1] != "" && lines[index..] == rest
    && Join(lines[..index]) == head + Edited(body, default)
  }

  lemma EditingMore(head: string, body: seq<string>, rest: seq<string>, lines: seq<string>, index: nat,
                    edited: seq<string>, next: nat, default: string)
    requires rest != [] && index < |lines| && Editing(head, body, rest, lines, index, default)
    requires 0 < next <= |edited| && edited[next - 1] != ""
    requires Join(edited[..next]) == Join(lines[..index]) + EditedLine(rest[0], default)
    requires edited[next..] == rest[1..]
    ensures Editing(head, body + [rest[0]], rest[1..], edited, next, default)
  {
    EditedConcat(body, [rest[0]], default);
    EditedOne(rest[0], default);
    Associate(head, Edited(body, default), EditedLine(rest[0], default));
  }

  lemma RestOf(lines: seq<string>, index: nat, rest: seq<string>)
    requires index < |lines| && lines[index..] == rest
    ensures lines[index] == rest[0] && lines[index + 1..] == rest[1..]
  {
    assert lines[index..][1..] == lines[index + 1..];
  }

  lemma NextSlice(table: seq<string>, from: nat, done: nat)
    requires from <= done < |table|
    ensures table[from..done + 1] == table[from..done] + [table[done]]
  {
  }

  lemma EditingStarts(table: seq<string>, from: nat, default: string)
    requires 0 < from <= |table| && table[from - 1] != ""
    ensures Editing(Join(table[..from]), [], table[from..], table, from, default) && SeenAre({}, [])
    ensures table[from..from] == []
  {
    assert Join(table[..from]) + "" == Join(table[..from]);
  }

  lemma LineDeleted(lines: seq<string>, index: nat)
    requires index < |lines|
    ensures var next := lines[..index] + lines[index + 1..];
            next[..index] == lines[..index] && next[index..] == lines[index + 1..]
  {
  }

  lemma RewrittenNotEmpty(line: string, key: Key, default: string)
    ensures key != StartupMs ==> Rewritten(line, key, default) != ""
  {
    NamePlain(key);
    NameChars(Name(key), key);
  }

  /** The loop: rewrites settings in place, and deletes those in milliseconds. */
  method EditTable(table: seq<string>, start: nat, end: nat, default: string)
    returns (lines: seq<string>, tableEnd: nat, seen: set<Key>)
    requires start < end <= |table| && forall k | 0 <= k < |table| :: table[k] != ""
    ensures Editing(Join(table[..start + 1]), table[start + 1..end], table[end..], lines, tableEnd, default)
    ensures SeenAre(seen, table[start + 1..end])
  {
    lines, tableEnd, seen := table, end, {};
    var index: nat := start + 1;
    ghost var done: nat := start + 1;
    ghost var body, rest := [], table[start + 1..];
    EditingStarts(table, start + 1, default);
    while index < tableEnd
      invariant start < done <= end && tableEnd - index == end - done
      invariant body == table[start + 1..done] && rest == table[done..]
      invariant Editing(Join(table[..start + 1]), body, rest, lines, index, default) && SeenAre(seen, body)
      decreases tableEnd - index
    {
      RestOf(table, done, rest);
      NextSlice(table, start + 1, done);
      lines, index, tableEnd, seen :=
        EditNext(Join(table[..start + 1]), body, rest, lines, index, tableEnd, seen, default);
      body, rest, done := body + [rest[0]], rest[1..], done + 1;
    }
    assert done == end && index == tableEnd;
    EditingDone(Join(table[..start + 1]), table, start + 1, end, body, rest, lines, tableEnd, seen, default);
  }

  lemma EditingDone(head: string, table: seq<string>, from: nat, end: nat, body: seq<string>, rest: seq<string>,
                    lines: seq<string>, tableEnd: nat, seen: set<Key>, default: string)
    requires from <= end <= |table| && body == table[from..end] && rest == table[end..]
    requires Editing(head, body, rest, lines, tableEnd, default) && SeenAre(seen, body)
    ensures Editing(head, table[from..end], table[end..], lines, tableEnd, default)
    ensures SeenAre(seen, table[from..end])
  {
  }

  /** One round of the loop. */
  method EditNext(ghost head: string, ghost body: seq<string>, ghost rest: seq<string>,
                  lines: seq<string>, index: nat, tableEnd: nat, seen: set<Key>, default: string)
    returns (edited: seq<string>, next: nat, nextEnd: nat, found: set<Key>)
    requires rest != [] && rest[0] != "" && index < tableEnd
    requires Editing(head, body, rest, lines, index, default) && SeenAre(seen, body)
    ensures Editing(head, body + [rest[0]], rest[1..], edited, next, default) && SeenAre(found, body + [rest[0]])
    ensures nextEnd - next == tableEnd - index - 1
  {
    RestOf(lines, index, rest);
    SeenMore(body, lines[index], seen);
    found := WithFound(seen, Setting(lines[index]));
    nextEnd := if Setting(lines[index]) == Some(StartupMs) then tableEnd - 1 else tableEnd;
    edited, next := EditLine(lines, index, default);
    EditingMore(head, body, rest, lines, index, edited, next, default);
  }

  /** Edits one line in place; the result says where the next one is. */
  method EditLine(lines: seq<string>, index: nat, default: string) returns (edited: seq<string>, next: nat)
    requires 0 < index < |lines| && lines[index - 1] != "" && lines[index] != ""
    ensures next == (if Setting(lines[index]) == Some(StartupMs) then index else index + 1)
    ensures 0 < next <= |edited| && edited[next - 1] != ""
    ensures Join(edited[..next]) == Join(lines[..index]) + EditedLine(lines[index], default)
    ensures edited[next..] == lines[index + 1..]
  {
    var line := lines[index];
    match Setting(line)
    case None =>
      JoinTo(lines, index);
      return lines, index + 1;
    case Some(StartupMs) =>
      assert Join(lines[..index]) + "" == Join(lines[..index]);
      LineDeleted(lines, index);
      return lines[..index] + lines[index + 1..], index;
    case Some(key) =>
      var rewritten := Rewritten(line, key, default);
      RewrittenNotEmpty(line, key, default);
      LineSet(lines, index, rewritten);
      return lines[index := rewritten], index + 1;
  }

  method WithMcpTimeouts(configuration: string) returns (r: Option<string>)
    ensures r == WithTimeouts(configuration)
  {
    r := UpdateTable(configuration, IsHeader);
  }

  method UpdateTable(text: string, isHeader: string -> bool) returns (r: Option<string>)
    ensures r == match PartsWith(text, isHeader)
                 case None => None
                 case Some(parts) => Some(Updated(parts, DefaultEnding(text)))
  {
    var lines := SplitLines(text);
    var start := FindFirst(lines, 0, isHeader);
    if start == |lines| {
      return None;
    }
    var end := FindFirst(lines, start + 1, Opens);
    LinesAre(text);
    var edited, tableEnd, seen := EditTable(lines, start, end, DefaultEnding(text));
    var updated := AddMissing(edited, tableEnd, seen, DefaultEnding(text));
    UpdatedAs(text, isHeader, start, end, Join(edited[..tableEnd]), seen);
    r := Some(Join(updated));
  }

  lemma JoinAdd(lines: seq<string>, line: string)
    ensures Join(lines + [line]) == Join(lines) + line
  {
    JoinConcat(lines, [line]);
    JoinOne(line);
  }

  lemma JoinThree(a: seq<string>, b: seq<string>, c: seq<string>)
    ensures Join(a + b + c) == Join(a) + Join(b) + Join(c)
  {
    JoinConcat(a + b, c);
    JoinConcat(a, b);
  }

  lemma LastClosed(lines: seq<string>, n: nat, r: seq<string>, default: string)
    requires 0 < n <= |lines| && lines[n - 1] != ""
    requires r == if IsClosed(lines[n - 1]) then lines else lines[n - 1 := lines[n - 1] + default]
    ensures Join(r[..n]) == Closed(Join(lines[..n]), default) && r[n..] == lines[n..]
  {
    JoinTo(lines, n - 1);
    JoinTo(r, n - 1);
    assert r[..n - 1] == lines[..n - 1];
    ClosedThen(Join(lines[..n - 1]), lines[n - 1], default);
  }

  lemma ClosedThen(before: string, text: string, default: string)
    requires text != ""
    ensures Closed(before + text, default) == before + Closed(text, default)
  {
    Associate(before, text, default);
  }

  lemma UpdatedParts(text: string, isHeader: string -> bool, start: nat, end: nat)
    returns (before: string, header: string, body: seq<string>, after: string)
    requires start == First(SplitLines(text), 0, isHeader) < |SplitLines(text)|
    requires end == First(SplitLines(text), start + 1, Opens)
    ensures PartsWith(text, isHeader).Some?
    ensures Updated(PartsWith(text, isHeader).value, DefaultEnding(text)) ==
            before + Table(header, body, DefaultEnding(text)) + after
    ensures before + header == Join(SplitLines(text)[..start + 1]) && header != ""
    ensures body == SplitLines(text)[start + 1..end] && after == Join(SplitLines(text)[end..])
  {
    var lines := SplitLines(text);
    SlicesOf(lines, start, end);
    LinesAre(text);
    JoinTo(lines, start);
    before, header, body, after := Join(lines[..start]), lines[start], lines[start + 1..end], Join(lines[end..]);
  }

  /** What the method puts together is the specified text. */
  lemma UpdatedAs(text: string, isHeader: string -> bool, start: nat, end: nat, edited: string, seen: set<Key>)
    requires start == First(SplitLines(text), 0, isHeader) < |SplitLines(text)|
    requires end == First(SplitLines(text), start + 1, Opens)
    requires edited == Join(SplitLines(text)[..start + 1])
                       + Edited(SplitLines(text)[start + 1..end], DefaultEnding(text))
    requires SeenAre(seen, SplitLines(text)[start + 1..end])
    ensures Updated(PartsWith(text, isHeader).value, DefaultEnding(text)) ==
            Closed(edited, DefaultEnding(text))
            + (if StartupSec in seen then "" else Head("", StartupSec) + DefaultEnding(text))
            + (if ToolSec in seen then "" else Head("", ToolSec) + DefaultEnding(text))
            + Join(SplitLines(text)[end..])
  {
    var before, header, body, after := UpdatedParts(text, isHeader, start, end);
    TableAsEdited(before, header, body, edited, seen, DefaultEnding(text), after);
  }

  lemma SlicesOf(lines: seq<string>, start: nat, end: nat)
    requires start < end <= |lines|
    ensures lines[start..end][0] == lines[start] && lines[start..end][1..] == lines[start + 1..end]
  {
  }

  lemma TableAsEdited(before: string, header: string, body: seq<string>, edited: string, seen: set<Key>,
                      default: string, after: string)
    requires header != "" && edited == (before + header) + Edited(body, default)
    requires SeenAre(seen, body)
    ensures before + Table(header, body, default) + after ==
            Closed(edited, default)
            + (if StartupSec in seen then "" else Head("", StartupSec) + default)
            + (if ToolSec in seen then "" else Head("", ToolSec) + default)
            + after
  {
    var x := header + Edited(body, default);
    Associate(before, header, Edited(body, default));
    ClosedThen(before, x, default);
    var a, b := Addition(body, StartupSec, default), Addition(body, ToolSec, default);
    Associate(before, Closed(x, default) + a, b);
    Associate(before, Closed(x, default), a);
  }

  /** Ends the table's last line, and inserts the settings that are not in it. */
  method AddMissing(lines: seq<string>, tableEnd: nat, seen: set<Key>, default: string) returns (r: seq<string>)
    requires 0 < tableEnd <= |lines| && lines[tableEnd - 1] != ""
    ensures Join(r) == Closed(Join(lines[..tableEnd]), default)
                       + (if StartupSec in seen then "" else Head("", StartupSec) + default)
                       + (if ToolSec in seen then "" else Head("", ToolSec) + default) + Join(lines[tableEnd..])
  {
    r := lines;
    if !IsClosed(lines[tableEnd - 1]) {
      r := lines[tableEnd - 1 := lines[tableEnd - 1] + default];
    }
    LastClosed(lines, tableEnd, r, default);
    var additions := Additions(seen, default);
    JoinThree(r[..tableEnd], additions, r[tableEnd..]);
    r := r[..tableEnd] + additions + r[tableEnd..];
    var first, second := if StartupSec in seen then "" else Head("", StartupSec) + default,
                         if ToolSec in seen then "" else Head("", ToolSec) + default;
    Associate(Closed(Join(lines[..tableEnd]), default), first, second);
  }

  method Additions(seen: set<Key>, default: string) returns (r: seq<string>)
    ensures Join(r) == (if StartupSec in seen then "" else Head("", StartupSec) + default)
                       + (if ToolSec in seen then "" else Head("", ToolSec) + default)
  {
    r := [];
    if StartupSec !in seen {
      r := [Head("", StartupSec) + default];
      JoinOne(Head("", StartupSec) + default);
    }
    assert Join(r) + "" == Join(r);
    if ToolSec !in seen {
      JoinAdd(r, Head("", ToolSec) + default);
      r := r + [Head("", ToolSec) + default];
    }
  }
}
