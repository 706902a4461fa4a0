/** scripts/install-macbook-client.py, `with_mcp_timeouts`: setting the timeouts in the Workbench
    table of a configuration, line by line. */
module TimeoutEditor {
  import opened Options

  /** What `str.splitlines` cuts after; a carriage return and a newline together are one break. */
  predicate IsBreak(c: char) {
    c in {'\n', '\r', '\U{0b}', '\U{0c}', '\U{1c}', '\U{1d}', '\U{1e}', '\U{85}', '\U{2028}', '\U{2029}'}
  }

  /** `str.isspace`, and `\s` of a pattern. */
  predicate IsSpace(c: char) {
    || IsBreak(c) || c in {'\t', '\U{1f}', ' ', '\U{a0}', '\U{1680}', '\U{202f}', '\U{205f}', '\U{3000}'}
    || '\U{2000}' <= c <= '\U{200a}'
  }

  function LineLength(text: string): (n: nat)
    ensures n <= |text| && (text != "" ==> n > 0)
  {
    if text == "" then 0
    else if IsBreak(text[0]) then if |text| > 1 && text[0] == '\r' && text[1] == '\n' then 2 else 1
    else 1 + LineLength(text[1..])
  }

  /** `str.splitlines(keepends=True)`. */
  function SplitLines(text: string): seq<string> {
    if text == "" then []
    else
      var n := LineLength(text);
      [text[..n]] + SplitLines(text[n..])
  }

  function Join(lines: seq<string>): string {
    if lines == [] then "" else lines[0] + Join(lines[1..])
  }

  lemma {:induction false} JoinSplit(text: string)
    ensures Join(SplitLines(text)) == text
  {
    if text != "" {
      JoinSplit(text[LineLength(text)..]);
    }
  }

  /** How many spaces come first. */
  function Blanks(s: string): (n: nat)
    ensures n <= |s|
    ensures forall k | 0 <= k < n :: IsSpace(s[k])
    ensures n < |s| ==> !IsSpace(s[n])
  {
    if s != "" && IsSpace(s[0]) then 1 + Blanks(s[1..]) else 0
  }

  datatype Key = StartupSec | StartupMs | ToolSec

  function Name(key: Key): string {
    match key
    case StartupSec => "startup_timeout_sec"
    case StartupMs => "startup_timeout_ms"
    case ToolSec => "tool_timeout_sec"
  }

  function Value(key: Key): string {
    match key
    case StartupSec => "60"
    case StartupMs => ""
    case ToolSec => "3600"
  }

  /** `word`, then spaces, then an equals sign. */
  predicate Assigns(s: string, word: string) {
    word <= s && var rest := s[|word|..]; Blanks(rest) < |rest| && rest[Blanks(rest)] == '='
  }

  predicate AssignsName(s: string, name: string) {
    Assigns(s, name) || Assigns(s, "\"" + name + "\"") || Assigns(s, "'" + name + "'")
  }

  function KeyAt(s: string): Option<Key> {
    if AssignsName(s, Name(StartupSec)) then Some(StartupSec)
    else if AssignsName(s, Name(StartupMs)) then Some(StartupMs)
    else if AssignsName(s, Name(ToolSec)) then Some(ToolSec)
    else None
  }

  /** The timeout a line sets, after its indent. */
  function Setting(line: string): Option<Key> {
    KeyAt(line[Blanks(line)..])
  }

  function Indent(line: string): string {
    line[..Blanks(line)]
  }

  /** Whether a line opens a table; so do some lines of a nested array. */
  predicate Opens(line: string) {
    Blanks(line) < |line| && line[Blanks(line)] == '['
  }

  predicate EndsWithNewline(s: string) {
    |s| >= 1 && s[|s| - 1] == '\n'
  }

  predicate EndsWithReturnNewline(s: string) {
    EndsWithNewline(s) && |s| >= 2 && s[|s| - 2] == '\r'
  }

  function WithoutNewline(line: string): string {
    if EndsWithReturnNewline(line) then line[..|line| - 2]
    else if EndsWithNewline(line) then line[..|line| - 1]
    else line
  }

  /** What follows `token` and the spaces before it. */
  function Expect(s: string, token: string): Option<string> {
    var rest := s[Blanks(s)..];
    if token <= rest then Some(rest[|token|..]) else None
  }

  function ExpectAny(s: string, first: string, second: string, third: string): Option<string> {
    if Expect(s, first).Some? then Expect(s, first)
    else if Expect(s, second).Some? then Expect(s, second)
    else Expect(s, third)
  }

  /** Only spaces, or spaces and a comment. */
  predicate Trailing(s: string) {
    Blanks(s) < |s| ==> s[Blanks(s)] == '#'
  }

  predicate Bracketed(s: string) {
    Expect(s, "]").Some? && Trailing(Expect(s, "]").value)
  }

  function ExpectName(s: string): Option<string> {
    ExpectAny(s, "codex-workbench", "\"codex-workbench\"", "'codex-workbench'")
  }

  predicate Named(s: string) {
    ExpectName(s).Some? && Bracketed(ExpectName(s).value)
  }

  predicate Dotted(s: string) {
    Expect(s, ".").Some? && Named(Expect(s, ".").value)
  }

  predicate Nested(s: string) {
    Expect(s, "mcp_servers").Some? && Dotted(Expect(s, "mcp_servers").value)
  }

  /** The header of the Workbench table without its newline: mcp_servers, a dot and the name,
      bare or quoted, between brackets. */
  predicate IsRegistration(s: string) {
    Expect(s, "[").Some? && Nested(Expect(s, "[").value)
  }

  predicate IsHeader(line: string) {
    IsRegistration(WithoutNewline(line))
  }

  function Ending(line: string, default: string): string {
    if EndsWithReturnNewline(line) then "\r\n" else if EndsWithNewline(line) then "\n" else default
  }

  /** The comment in a text, from its first number sign on. */
  function CommentIn(s: string): string {
    if s == "" then ""
    else if s[0] == '#' then " #" + s[1..]
    else CommentIn(s[1..])
  }

  function Rewritten(line: string, key: Key, default: string): string {
    Head(Indent(line), key) + CommentIn(WithoutNewline(line)) + Ending(line, default)
  }

  /** A setting with its fixed value. */
  function Head(indent: string, key: Key): string {
    indent + (Name(key) + " = " + Value(key))
  }

  /** What the loop makes of one line of the table. */
  function EditedLine(line: string, default: string): string {
    match Setting(line)
    case None => line
    case Some(StartupMs) => ""
    case Some(key) => Rewritten(line, key, default)
  }

  /** The text of a table after the loop. */
  function Edited(lines: seq<string>, default: string): string {
    if lines == [] then "" else EditedLine(lines[0], default) + Edited(lines[1..], default)
  }

  function EditedText(text: string, default: string): string {
    Edited(SplitLines(text), default)
  }

  predicate IsLine(s: string) {
    s != "" && LineLength(s) == |s|
  }

  predicate Ended(s: string) {
    s != "" && IsBreak(s[|s| - 1])
  }

  /** A line break between the texts, or none that the cut would tear apart. */
  predicate CleanCut(a: string, b: string) {
    Ended(a) && !(a[|a| - 1] == '\r' && b != "" && b[0] == '\n')
  }

  function LastLine(text: string): string
    requires text != ""
  {
    SplitLines(text)[|SplitLines(text)| - 1]
  }

  function LinesBeforeLast(text: string): seq<string>
    requires text != ""
  {
    SplitLines(text)[..|SplitLines(text)| - 1]
  }

  lemma {:induction false} FirstLine(text: string)
    requires text != ""
    ensures var n := LineLength(text); IsLine(text[..n]) && (n < |text| ==> CleanCut(text[..n], text[n..]))
  {
    var n := LineLength(text);
    if !IsBreak(text[0]) && |text| > 1 {
      FirstLine(text[1..]);
      var first := text[1..][..n - 1];
      assert text[..n] == [text[0]] + first && text[..n][1..] == first;
      assert text[n..] == text[1..][n - 1..];
    }
  }

  /** Where a line ends, whatever follows. */
  lemma {:induction false} LineThen(line: string, rest: string)
    requires IsLine(line)
    ensures LineLength(line + rest) ==
            if !Ended(line) then |line| + LineLength(rest)
            else if CleanCut(line, rest) then |line| else |line| + 1
  {
    assert (line + rest)[0] == line[0];
    if |line| == 1 {
      assert (line + rest)[1..] == rest;
    } else if !IsBreak(line[0]) {
      LineThen(line[1..], rest);
      assert (line + rest)[1..] == line[1..] + rest;
    }
  }

  lemma SplitLine(line: string)
    requires IsLine(line)
    ensures SplitLines(line) == [line]
  {
    assert line[..|line|] == line && SplitLines(line[|line|..]) == [];
  }

  /** What follows a text reaches no further back than its last line. */
  lemma {:induction false} SplitThen(a: string, b: string)
    requires a != ""
    ensures IsLine(LastLine(a)) && LastLine(a)[|LastLine(a)| - 1] == a[|a| - 1]
    ensures SplitLines(a + b) == LinesBeforeLast(a) + SplitLines(LastLine(a) + b)
  {
    var n := LineLength(a);
    FirstLine(a);
    var first, rest := a[..n], a[n..];
    if rest == "" {
      assert first == a;
      SplitLine(a);
    } else {
      SplitFirst(a, b);
      SplitThen(rest, b);
    }
  }

  lemma SplitFirst(a: string, b: string)
    requires LineLength(a) < |a|
    ensures var n := LineLength(a); SplitLines(a + b) == [a[..n]] + SplitLines(a[n..] + b)
    ensures var n := LineLength(a); SplitLines(a) == [a[..n]] + SplitLines(a[n..])
  {
    var n := LineLength(a);
    FirstLine(a);
    var first, rest := a[..n], a[n..];
    assert a + b == first + (rest + b);
    LineThen(first, rest + b);
    assert (first + (rest + b))[..n] == first && (first + (rest + b))[n..] == rest + b;
  }

  predicate IsNewline(s: string) {
    s == "\n" || s == "\r\n"
  }

  lemma {:induction false} BreaksAtEnd(line: string, k: nat)
    requires IsLine(line) && k < |line| - 1 && IsBreak(line[k])
    ensures k == |line| - 2 && line[k] == '\r' && line[k + 1] == '\n'
  {
    if k > 0 {
      BreaksAtEnd(line[1..], k - 1);
    }
  }

  lemma {:induction false} BlanksThen(s: string, tail: string)
    requires Blanks(s) < |s|
    ensures Blanks(s + tail) == Blanks(s)
  {
    assert (s + tail)[0] == s[0];
    if IsSpace(s[0]) {
      assert (s + tail)[1..] == s[1..] + tail;
      BlanksThen(s[1..], tail);
    }
  }

  lemma {:induction false} AllBlank(s: string, tail: string)
    requires forall k | 0 <= k < |s| :: IsSpace(s[k])
    ensures Blanks(s + tail) == |s| + Blanks(tail)
  {
    if s == "" {
      assert s + tail == tail;
    } else {
      assert (s + tail)[1..] == s[1..] + tail;
      AllBlank(s[1..], tail);
    }
  }

  lemma AssignsThen(s: string, word: string, newline: string)
    requires IsNewline(newline) && forall k | 0 <= k < |word| :: !IsBreak(word[k])
    ensures Assigns(s + newline, word) <==> Assigns(s, word)
  {
    assert word <= s ==> word <= s + newline;
    if word <= s + newline {
      assert IsBreak(newline[0]) && (s + newline)[|s|] == newline[0];
      assert forall k | 0 <= k < |word| :: word[k] == (s + newline)[k];
      assert word <= s;
      var rest := s[|word|..];
      assert (s + newline)[|word|..] == rest + newline;
      if Blanks(rest) < |rest| {
        BlanksThen(rest, newline);
      } else {
        AllBlank(rest, newline);
      }
    }
  }

  lemma AssignsNameThen(s: string, key: Key, newline: string)
    requires IsNewline(newline)
    ensures AssignsName(s + newline, Name(key)) <==> AssignsName(s, Name(key))
  {
    AssignsThen(s, Name(key), newline);
    AssignsThen(s, "\"" + Name(key) + "\"", newline);
    AssignsThen(s, "'" + Name(key) + "'", newline);
  }

  /** A newline after a line does not change what the line sets. */
  lemma SettingThen(line: string, newline: string)
    requires IsNewline(newline)
    ensures Setting(line + newline) == Setting(line)
  {
    var n := Blanks(line);
    if n < |line| {
      BlanksThen(line, newline);
      assert (line + newline)[n..] == line[n..] + newline;
      AssignsNameThen(line[n..], StartupSec, newline);
      AssignsNameThen(line[n..], StartupMs, newline);
      AssignsNameThen(line[n..], ToolSec, newline);
    } else {
      AllBlank(line, newline);
      assert Blanks(newline) == |newline| by {
        assert newline[1..] == "" || newline[1..] == "\n";
      }
      assert (line + newline)[n + |newline|..] == line[n..] == "";
    }
  }

  lemma {:induction false} EditedConcat(a: seq<string>, b: seq<string>, default: string)
    ensures Edited(a + b, default) == Edited(a, default) + Edited(b, default)
  {
    if a == [] {
      assert a + b == b;
    } else {
      assert (a + b)[1..] == a[1..] + b;
      EditedConcat(a[1..], b, default);
      Associate(EditedLine(a[0], default), Edited(a[1..], default), Edited(b, default));
    }
  }

  lemma Associate<T>(x: seq<T>, y: seq<T>, z: seq<T>)
    ensures x + (y + z) == (x + y) + z
  {
  }

  lemma SplitClean(line: string, rest: string)
    requires IsLine(line) && CleanCut(line, rest)
    ensures SplitLines(line + rest) == [line] + SplitLines(rest)
  {
    LineThen(line, rest);
    assert (line + rest)[..|line|] == line && (line + rest)[|line|..] == rest;
  }

  /** Across a clean cut the lines are those of both sides. */
  lemma {:induction false} SplitConcat(a: string, b: string)
    requires CleanCut(a, b)
    ensures SplitLines(a + b) == SplitLines(a) + SplitLines(b)
  {
    if LineLength(a) == |a| {
      SplitLine(a);
      SplitClean(a, b);
    } else {
      var first, rest := a[..LineLength(a)], a[LineLength(a)..];
      SplitFirst(a, b);
      assert CleanCut(rest, b);
      SplitConcat(rest, b);
      Associate([first], SplitLines(rest), SplitLines(b));
    }
  }

  /** What completes the last line of `a`, when no clean cut follows it. */
  function Completion(a: string, b: string): string {
    if Ended(a) then "\n" else b
  }

  /** Else the last line is completed. */
  lemma SplitUnclean(a: string, b: string)
    requires a != "" && !CleanCut(a, b) && (Ended(a) || IsNewline(b))
    ensures var c := Completion(a, b);
            && IsNewline(c) && c <= b
            && SplitLines(a + b) == LinesBeforeLast(a) + ([LastLine(a) + c] + SplitLines(b[|c|..]))
            && SplitLines(b) == [c] + SplitLines(b[|c|..])
  {
    SplitThen(a, b);
    SplitCompleted(LastLine(a), b);
  }

  lemma SplitCompleted(line: string, b: string)
    requires IsLine(line) && !CleanCut(line, b) && (Ended(line) || IsNewline(b))
    ensures var c := Completion(line, b);
            && IsNewline(c) && c <= b
            && SplitLines(line + b) == [line + c] + SplitLines(b[|c|..])
            && SplitLines(b) == [c] + SplitLines(b[|c|..])
  {
    var c := Completion(line, b);
    NewlineLine(c);
    LineThen(line, b);
    assert LineLength(b) == |c| by {
      assert Ended(line) ==> b[0] == '\n';
    }
    assert b == c + b[|c|..];
    assert b[..|c|] == c;
    assert (line + b)[..|line| + |c|] == line + c && (line + b)[|line| + |c|..] == b[|c|..];
  }

  lemma NewlineLine(newline: string)
    ensures IsNewline(newline) ==> IsLine(newline)
  {
    if newline == "\r\n" {
      assert newline[1] == '\n';
    }
  }

  /** Across a clean cut the edit works on both sides. */
  lemma EditConcat(a: string, b: string, default: string)
    requires CleanCut(a, b)
    ensures EditedText(a + b, default) == EditedText(a, default) + EditedText(b, default)
  {
    SplitConcat(a, b);
    EditedConcat(SplitLines(a), SplitLines(b), default);
  }

  /** So it does after a line that sets nothing, be it cut or completed by what follows. */
  lemma EditAfterPlain(a: string, b: string, default: string)
    requires a != "" && Setting(LastLine(a)) == None && (Ended(a) || IsNewline(b))
    ensures EditedText(a + b, default) == EditedText(a, default) + EditedText(b, default)
  {
    if CleanCut(a, b) {
      EditConcat(a, b, default);
    } else {
      EditUnclean(a, b, Completion(a, b), default);
    }
  }

  lemma SplitEnd(a: string)
    requires a != ""
    ensures SplitLines(a) == LinesBeforeLast(a) + [LastLine(a)]
  {
  }

  lemma EditUnclean(a: string, b: string, c: string, default: string)
    requires a != "" && Setting(LastLine(a)) == None && (Ended(a) || IsNewline(b))
    requires !CleanCut(a, b) && c == Completion(a, b)
    ensures EditedText(a + b, default) == EditedText(a, default) + EditedText(b, default)
  {
    var before, line, after := LinesBeforeLast(a), LastLine(a), SplitLines(b[|c|..]);
    assert SplitLines(a + b) == before + ([line + c] + after) && SplitLines(b) == [c] + after && IsNewline(c) by {
      SplitUnclean(a, b);
    }
    SplitEnd(a);
    assert Setting(line + c) == None && Setting(c) == None by {
      SettingThen(line, c);
      NewlinePlain(c);
    }
    EditedCompleted(before, line, c, after, default);
  }

  lemma EditedCompleted(before: seq<string>, line: string, c: string, after: seq<string>, default: string)
    requires Setting(line) == None && Setting(line + c) == None && Setting(c) == None
    ensures Edited(before + ([line + c] + after), default) ==
            Edited(before + [line], default) + Edited([c] + after, default)
  {
    EditedConcat(before, [line + c] + after, default);
    EditedConcat(before, [line], default);
    EditedConcat([line + c], after, default);
    EditedConcat([c], after, default);
    EditedPlain(line + c, default);
    EditedPlain(line, default);
    EditedPlain(c, default);
    Reassociate(Edited(before, default), line, c, Edited(after, default));
  }

  lemma Reassociate(x: string, y: string, z: string, w: string)
    ensures x + ((y + z) + w) == (x + y) + (z + w)
  {
  }

  lemma EditedPlain(line: string, default: string)
    requires Setting(line) == None
    ensures Edited([line], default) == line
  {
    EditedOne(line, default);
  }

  lemma EditedOne(line: string, default: string)
    ensures Edited([line], default) == EditedLine(line, default)
  {
    assert [line][1..] == [];
  }

  lemma NewlinePlain(newline: string)
    requires IsNewline(newline)
    ensures Setting(newline) == None
  {
    assert Setting("") == None;
    SettingThen("", newline);
    assert "" + newline == newline;
  }

  /** The loop leaves a line break in the comment of what it writes, and a newline after it:
      the comment ends at a break other than a newline, and is not completed to one. */
  predicate Grows(line: string, default: string) {
    && Setting(line) in {Some(StartupSec), Some(ToolSec)}
    && '#' in line && Ended(line) && line[|line| - 1] != '\n' && !(line[|line| - 1] == '\r' && default == "\n")
  }

  predicate IsComment(s: string) {
    s == "" || " #" <= s
  }

  predicate Plain(s: string) {
    forall k | 0 <= k < |s| :: !IsBreak(s[k]) && s[k] != '#'
  }

  lemma CommentAgain(c: string)
    requires IsComment(c)
    ensures CommentIn(c) == c
  {
    if c != "" {
      assert c[1..][0] == c[1] == '#';
      assert c[1..][1..] == c[2..];
    }
  }

  lemma {:induction false} CommentAfter(a: string, b: string)
    requires Plain(a)
    ensures CommentIn(a + b) == CommentIn(b)
  {
    if a == "" {
      assert a + b == b;
    } else {
      assert (a + b)[1..] == a[1..] + b;
      CommentAfter(a[1..], b);
    }
  }

  /** A setting takes up room, and no line break falls into its indent. */
  lemma IndentPlain(line: string)
    requires IsLine(line) && Setting(line).Some?
    ensures Plain(Indent(line))
    ensures forall k | 0 <= k < |Indent(line)| :: IsSpace(Indent(line)[k])
  {
    var n := Blanks(line);
    SettingLong(line[n..]);
    forall k | 0 <= k < n
      ensures !IsBreak(line[k])
    {
      if IsBreak(line[k]) {
        BreaksAtEnd(line, k);
      }
    }
  }

  lemma SettingLong(s: string)
    requires KeyAt(s).Some?
    ensures |s| > 2
  {
    assert |Name(StartupSec)| > 2 && |Name(StartupMs)| > 2 && |Name(ToolSec)| > 2;
  }

  lemma HeadPlain(indent: string, key: Key)
    requires Plain(indent)
    ensures Plain(Head(indent, key))
  {
    NamePlain(key);
    PlainConcat(Name(key), " = ");
    PlainConcat(Name(key) + " = ", Value(key));
    PlainConcat(indent, Name(key) + " = " + Value(key));
  }

  lemma PlainName(key: Key)
    ensures Plain(Name(key))
  {
  }

  lemma PlainValue(key: Key)
    ensures Plain(Value(key))
  {
  }

  lemma NamePlain(key: Key)
    ensures Plain(Name(key)) && Plain(Value(key)) && Plain(" = ")
  {
    PlainName(key);
    PlainValue(key);
  }

  lemma PlainConcat(a: string, b: string)
    requires Plain(a) && Plain(b)
    ensures Plain(a + b)
  {
  }

  lemma HeadSets(indent: string, key: Key, tail: string)
    requires forall k | 0 <= k < |indent| :: IsSpace(indent[k])
    ensures Setting(Head(indent, key) + tail) == Some(key)
    ensures Indent(Head(indent, key) + tail) == indent
  {
    NameAssigns(key, Value(key) + tail);
    SettingAt(indent, Name(key) + (" = " + (Value(key) + tail)));
    Regroup(indent, Name(key), " = ", Value(key), tail);
  }

  lemma Regroup(a: string, b: string, c: string, d: string, e: string)
    ensures a + (b + c + d) + e == a + (b + (c + (d + e)))
  {
  }

  lemma SettingAt(indent: string, s: string)
    requires forall k | 0 <= k < |indent| :: IsSpace(indent[k])
    requires s != "" && !IsSpace(s[0])
    ensures Setting(indent + s) == KeyAt(s) && Indent(indent + s) == indent
  {
    AllBlank(indent, s);
    assert (indent + s)[|indent|..] == s && (indent + s)[..|indent|] == indent;
  }

  lemma NameAssigns(key: Key, tail: string)
    ensures var s := Name(key) + (" = " + tail); KeyAt(s) == Some(key) && s != "" && !IsSpace(s[0])
  {
    var s := Name(key) + (" = " + tail);
    NameAssigned(Name(key), tail);
    NameChars(s, key);
    OthersDiffer(s, key);
    KeyIs(s, key);
  }

  lemma OthersDiffer(s: string, key: Key)
    requires Name(key) <= s
    ensures forall other: Key | other != key ::
              (other == StartupMs && key == StartupSec) || !AssignsName(s, Name(other))
  {
    NameChars(s, key);
    forall other: Key | other != key
      ensures (other == StartupMs && key == StartupSec) || !AssignsName(s, Name(other))
    {
      Differ(s, Name(other), if key == StartupMs && other == StartupSec then 16 else 0);
    }
  }

  lemma KeyIs(s: string, key: Key)
    requires AssignsName(s, Name(key))
    requires forall other: Key | other != key ::
               (other == StartupMs && key == StartupSec) || !AssignsName(s, Name(other))
    ensures KeyAt(s) == Some(key)
  {
  }

  lemma NameChars(s: string, key: Key)
    requires Name(key) <= s
    ensures s[0] == if key == ToolSec then 't' else 's'
    ensures key == StartupMs ==> s[16] == 'm'
    ensures Name(StartupSec)[0] == Name(StartupMs)[0] == 's' && Name(ToolSec)[0] == 't' && Name(StartupSec)[16] == 's'
  {
    assert s[0] == Name(key)[0];
    assert key == StartupMs ==> s[16] == Name(StartupMs)[16] == 'm';
  }

  lemma NameAssigned(name: string, tail: string)
    ensures AssignsName(name + (" = " + tail), name)
  {
    var rest := " = " + tail;
    assert (name + rest)[|name|..] == rest;
    assert rest[1..][0] == '=';
    assert Blanks(rest) == 1;
  }

  lemma Differ(s: string, name: string, at: nat)
    requires s != "" && s[0] !in {'"', '\''}
    ensures at < |s| && at < |name| && s[at] != name[at] ==> !AssignsName(s, name)
  {
    assert ("\"" + name + "\"")[0] == '"' && ("'" + name + "'")[0] == '\'';
  }

  lemma {:induction false} PlainThen(a: string, b: string)
    requires Plain(a)
    ensures LineLength(a + b) == |a| + LineLength(b)
  {
    if a == "" {
      assert a + b == b;
    } else {
      assert (a + b)[0] == a[0] && (a + b)[1..] == a[1..] + b;
      PlainThen(a[1..], b);
    }
  }

  /** No break before the last character. */
  predicate Unbroken(s: string) {
    forall k | 0 <= k < |s| - 1 :: !IsBreak(s[k])
  }

  lemma WithoutNewlineUnbroken(line: string)
    requires IsLine(line)
    ensures var s := WithoutNewline(line);
            && Unbroken(s)
            && (Ended(s) <==> Ended(line) && line[|line| - 1] != '\n') && (Ended(s) ==> s == line)
            && ('#' in s <==> '#' in line)
  {
    var s := WithoutNewline(line);
    forall k | 0 <= k < |line| - 1 && IsBreak(line[k])
      ensures k == |line| - 2 && line[k] == '\r' && line[k + 1] == '\n'
    {
      BreaksAtEnd(line, k);
    }
    assert line == s + line[|s|..];
  }

  /** The comment kept for a line ends at a break exactly if the line has one, and ends at a
      break other than a newline. */
  lemma KeptComment(line: string) returns (c: string)
    requires IsLine(line)
    ensures && c == CommentIn(WithoutNewline(line)) && IsComment(c) && Unbroken(c) && (c != "" ==> |c| >= 2)
            && (Ended(c) <==> '#' in line && Ended(line) && line[|line| - 1] != '\n')
            && (Ended(c) ==> c[|c| - 1] == line[|line| - 1])
  {
    WithoutNewlineUnbroken(line);
    CommentKept(WithoutNewline(line));
    c := CommentIn(WithoutNewline(line));
  }

  lemma {:induction false} CommentKept(s: string)
    requires Unbroken(s)
    ensures var c := CommentIn(s);
            && IsComment(c) && Unbroken(c) && (c != "" ==> |c| >= 2)
            && (Ended(c) <==> '#' in s && Ended(s))
            && (Ended(c) ==> c[|c| - 1] == s[|s| - 1])
  {
    if s != "" {
      assert s == [s[0]] + s[1..];
      if s[0] == '#' {
        assert CommentIn(s) == " " + s;
      } else {
        CommentKept(s[1..]);
      }
    }
  }

  /** What a setting is rewritten to, written in terms of what follows its value. */
  lemma EditedHead(indent: string, key: Key, tail: string, default: string)
    requires Plain(indent) && forall k | 0 <= k < |indent| :: IsSpace(indent[k])
    requires key != StartupMs
    ensures EditedLine(Head(indent, key) + tail, default) ==
            Head(indent, key) + CommentIn(WithoutNewline(tail)) + Ending(tail, default)
  {
    var head := Head(indent, key);
    HeadPlain(indent, key);
    HeadSets(indent, key, tail);
    TailThen(head, tail, default);
    CommentAfter(head, WithoutNewline(tail));
  }

  lemma TailThen(head: string, tail: string, default: string)
    requires Plain(head)
    ensures WithoutNewline(head + tail) == head + WithoutNewline(tail)
    ensures Ending(head + tail, default) == Ending(tail, default)
  {
    var s := head + tail;
    EndThen(head, tail);
    CutThen(head, tail, |WithoutNewline(tail)|);
    assert WithoutNewline(s) == s[..|head| + |WithoutNewline(tail)|];
  }

  lemma EndThen(head: string, tail: string)
    requires Plain(head)
    ensures EndsWithNewline(head + tail) <==> EndsWithNewline(tail)
    ensures EndsWithReturnNewline(head + tail) <==> EndsWithReturnNewline(tail)
  {
    var s := head + tail;
    assert |tail| >= 1 ==> s[|s| - 1] == tail[|tail| - 1];
    assert |tail| >= 2 ==> s[|s| - 2] == tail[|tail| - 2];
    assert |tail| == 1 && |head| >= 1 ==> s[|s| - 2] == head[|head| - 1];
    assert tail == "" && |head| >= 1 ==> s[|s| - 1] == head[|head| - 1];
  }

  lemma CutThen(head: string, tail: string, n: nat)
    requires n <= |tail|
    ensures (head + tail)[..|head| + n] == head + tail[..n]
  {
  }

  lemma TailParts(c: string, newline: string, default: string) returns (s: string, e: string)
    requires IsComment(c) && (c != "" ==> |c| >= 2) && IsNewline(newline)
    ensures s == WithoutNewline(c + newline) && e == Ending(c + newline, default)
    ensures s + e == c + newline && IsComment(s)
  {
    s, e := WithoutNewline(c + newline), Ending(c + newline, default);
    if c != "" && c[|c| - 1] == '\r' && newline == "\n" {
      assert s == c[..|c| - 1];
    } else {
      assert s == c;
    }
  }

  /** A kept comment and the newline after it are read back as they are. */
  lemma TailAgain(c: string, newline: string, default: string)
    requires IsComment(c) && (c != "" ==> |c| >= 2) && IsNewline(newline)
    ensures CommentIn(WithoutNewline(c + newline)) + Ending(c + newline, default) == c + newline
  {
    var s, e := TailParts(c, newline, default);
    CommentAgain(s);
  }

  lemma {:induction false} TailOfLine(c: string, newline: string)
    requires Unbroken(c) && IsNewline(newline) && '#' !in newline
    requires Ended(c) ==> c[|c| - 1] == '\r' && newline == "\n"
    ensures LineLength(c + newline) == |c + newline|
  {
    NewlineLine(newline);
    var s := c + newline;
    if c == "" {
      assert s == newline;
    } else if |c| == 1 && IsBreak(c[0]) {
      assert s == "\r\n";
      NewlineLine(s);
    } else {
      assert s[1..] == c[1..] + newline;
      TailOfLine(c[1..], newline);
    }
  }

  /** A second edit makes the text longer, or leaves it as it is. */
  predicate EditedFurther(text: string, default: string, grows: bool) {
    if grows then |EditedText(text, default)| > |text| else EditedText(text, default) == text
  }

  /** The parts of a rewritten line, and when it grows. */
  lemma RewrittenParts(line: string, key: Key, default: string) returns (indent: string, c: string, e: string)
    requires IsLine(line) && Setting(line) == Some(key) && key != StartupMs && IsNewline(default)
    ensures && Plain(indent) && (forall k | 0 <= k < |indent| :: IsSpace(indent[k]))
            && IsComment(c) && Unbroken(c) && (c != "" ==> |c| >= 2) && IsNewline(e) && EndsWithNewline(c + e)
            && (Grows(line, default) <==>
                Ended(c) && c[|c| - 1] != '\n' && !(c[|c| - 1] == '\r' && e == "\n"))
            && Rewritten(line, key, default) == (Head(indent, key) + c) + e == Head(indent, key) + (c + e)
            && (Ended(c) ==> c[|c| - 1] != '\n')
  {
    c, e := CommentParts(line, key, default);
    indent := Indent(line);
    IndentPlain(line);
    Associate(Head(indent, key), c, e);
  }

  lemma CommentParts(line: string, key: Key, default: string) returns (c: string, e: string)
    requires IsLine(line) && Setting(line) == Some(key) && key != StartupMs && IsNewline(default)
    ensures c == CommentIn(WithoutNewline(line)) && e == Ending(line, default)
    ensures IsComment(c) && Unbroken(c) && (c != "" ==> |c| >= 2) && IsNewline(e) && EndsWithNewline(c + e)
    ensures Grows(line, default) <==> Ended(c) && c[|c| - 1] != '\n' && !(c[|c| - 1] == '\r' && e == "\n")
    ensures Ended(c) ==> c[|c| - 1] != '\n'
  {
    c := KeptComment(line);
    e := Ending(line, default);
    NewlineMeans(line, default);
    GrowsMeans(line, key, default, c, e);
  }

  lemma GrowsMeans(line: string, key: Key, default: string, c: string, e: string)
    requires Setting(line) == Some(key) && key != StartupMs && IsNewline(e)
    requires Ended(c) <==> '#' in line && Ended(line) && line[|line| - 1] != '\n'
    requires Ended(c) ==> c[|c| - 1] == line[|line| - 1]
    requires !EndsWithNewline(line) ==> e == default
    ensures Grows(line, default) <==> Ended(c) && c[|c| - 1] != '\n' && !(c[|c| - 1] == '\r' && e == "\n")
  {
  }

  /** A rewritten line is edited to itself, unless it grows. */
  lemma RewrittenAgain(line: string, key: Key, first: string, second: string)
    requires IsLine(line) && Setting(line) == Some(key) && key != StartupMs
    requires IsNewline(first) && IsNewline(second)
    ensures var w := Rewritten(line, key, first);
            EndsWithNewline(w) && EditedFurther(w, second, Grows(line, first))
  {
    var indent, c, e := RewrittenParts(line, key, first);
    if Grows(line, first) {
      GrownAgain(indent, key, c, e, second);
    } else {
      SettledAgain(indent, key, c, e, second);
    }
  }

  lemma NewlineMeans(line: string, default: string)
    requires IsNewline(default)
    ensures IsNewline(Ending(line, default)) && EndsWithNewline(Ending(line, default))
    ensures !EndsWithNewline(line) ==> Ending(line, default) == default
  {
    assert default[|default| - 1] == '\n';
  }

  lemma SettledAgain(indent: string, key: Key, c: string, e: string, default: string)
    requires Plain(indent) && (forall k | 0 <= k < |indent| :: IsSpace(indent[k])) && key != StartupMs
    requires IsComment(c) && Unbroken(c) && (c != "" ==> |c| >= 2) && IsNewline(e)
    requires Ended(c) ==> c[|c| - 1] == '\r' && e == "\n"
    ensures IsLine(Head(indent, key) + (c + e))
    ensures EditedFurther(Head(indent, key) + (c + e), default, false)
  {
    var head, w := Head(indent, key), Head(indent, key) + (c + e);
    assert IsLine(w) by {
      HeadPlain(indent, key);
      PlainThen(head, c + e);
      TailOfLine(c, e);
    }
    assert EditedLine(w, default) == w by {
      EditedHead(indent, key, c + e, default);
      TailAgain(c, e, default);
      Associate(head, CommentIn(WithoutNewline(c + e)), Ending(c + e, default));
    }
    SplitLine(w);
    EditedOne(w, default);
  }

  lemma GrownAgain(indent: string, key: Key, c: string, e: string, default: string)
    requires Plain(indent) && (forall k | 0 <= k < |indent| :: IsSpace(indent[k])) && key != StartupMs
    requires IsComment(c) && Unbroken(c) && |c| >= 2 && IsNewline(e) && IsNewline(default)
    requires Ended(c) && c[|c| - 1] != '\n' && !(c[|c| - 1] == '\r' && e == "\n")
    ensures SplitLines((Head(indent, key) + c) + e) == [Head(indent, key) + c, e]
    ensures EditedFurther((Head(indent, key) + c) + e, default, true)
  {
    var w := Head(indent, key) + c;
    GrownLine(indent, key, c, e);
    assert EditedLine(w, default) == w + default by {
      EditedHead(indent, key, c, default);
      CommentAgain(c);
    }
    GrownText(w, e, default);
  }

  lemma GrownLine(indent: string, key: Key, c: string, e: string)
    requires Plain(indent) && IsNewline(e)
    requires Unbroken(c) && Ended(c) && c[|c| - 1] != '\n' && !(c[|c| - 1] == '\r' && e == "\n")
    ensures IsLine(Head(indent, key) + c) && SplitLines((Head(indent, key) + c) + e) == [Head(indent, key) + c, e]
  {
    var head := Head(indent, key);
    HeadPlain(indent, key);
    PlainThen(head, c);
    CommentLine(c);
    SplitTwo(head + c, e);
  }

  lemma SplitTwo(line: string, newline: string)
    requires IsLine(line) && IsNewline(newline) && CleanCut(line, newline)
    ensures SplitLines(line + newline) == [line, newline]
  {
    SplitClean(line, newline);
    NewlineLine(newline);
    SplitLine(newline);
  }

  lemma GrownText(w: string, e: string, default: string)
    requires EditedLine(w, default) == w + default && IsNewline(e) && IsNewline(default)
    requires SplitLines(w + e) == [w, e]
    ensures EditedFurther(w + e, default, true)
  {
    NewlinePlain(e);
    EditedConcat([w], [e], default);
    EditedOne(w, default);
    EditedOne(e, default);
    assert [w] + [e] == [w, e];
  }

  lemma {:induction false} CommentLine(c: string)
    requires Unbroken(c)
    ensures LineLength(c) == |c|
  {
    if |c| > 1 {
      CommentLine(c[1..]);
    }
  }

  /** Whether the loop makes some line grow. */
  predicate SomeGrow(lines: seq<string>, default: string) {
    exists k | 0 <= k < |lines| :: Grows(lines[k], default)
  }

  /** Editing what was edited leaves it as it is, unless some line of the first text grows. */
  lemma {:induction false} EditedAgain(text: string, first: string, second: string)
    requires IsNewline(first) && IsNewline(second)
    ensures EditedFurther(EditedText(text, first), second, SomeGrow(SplitLines(text), first))
  {
    if text != "" {
      var line, rest := text[..LineLength(text)], text[LineLength(text)..];
      EditedAgain(rest, first, second);
      FirstLine(text);
      EditedFirst(line, SplitLines(rest), first);
      SomeGrowFirst(line, SplitLines(rest), first);
      EditedLineAgain(line, EditedText(rest, first), first, second, SomeGrow(SplitLines(rest), first));
    }
  }

  lemma EditedFirst(line: string, rest: seq<string>, default: string)
    ensures Edited([line] + rest, default) == EditedLine(line, default) + Edited(rest, default)
  {
    assert ([line] + rest)[1..] == rest;
  }

  lemma SomeGrowFirst(line: string, rest: seq<string>, default: string)
    ensures SomeGrow([line] + rest, default) <==> Grows(line, default) || SomeGrow(rest, default)
  {
    var lines := [line] + rest;
    assert forall k | 0 <= k < |rest| :: lines[k + 1] == rest[k];
    assert lines[0] == line;
  }

  lemma EditedLineAgain(line: string, once: string, first: string, second: string, grows: bool)
    requires IsLine(line) && (once != "" ==> Ended(line))
    requires IsNewline(first) && IsNewline(second) && EditedFurther(once, second, grows)
    ensures EditedFurther(EditedLine(line, first) + once, second, Grows(line, first) || grows)
  {
    match Setting(line)
    case None =>
      PlainAgain(line, once, second);
      FurtherConcat(line, once, second, false, grows);
    case Some(StartupMs) =>
      assert EditedLine(line, first) + once == once;
    case Some(key) =>
      RewrittenAgain(line, key, first, second);
      NewlineAgain(Rewritten(line, key, first), once, second, Grows(line, first), grows);
  }

  lemma NewlineAgain(w: string, once: string, default: string, wGrows: bool, grows: bool)
    requires EndsWithNewline(w) && EditedFurther(w, default, wGrows) && EditedFurther(once, default, grows)
    ensures EditedFurther(w + once, default, wGrows || grows)
  {
    EditConcat(w, once, default);
    FurtherConcat(w, once, default, wGrows, grows);
  }

  lemma PlainAgain(line: string, once: string, default: string)
    requires IsLine(line) && (once != "" ==> Ended(line)) && Setting(line) == None
    ensures EditedFurther(line, default, false)
    ensures EditedText(line + once, default) == EditedText(line, default) + EditedText(once, default)
  {
    SplitLine(line);
    EditedOne(line, default);
    if once == "" {
      assert line + once == line;
    } else {
      EditAfterPlain(line, once, default);
    }
  }

  lemma FurtherConcat(a: string, b: string, default: string, aGrows: bool, bGrows: bool)
    requires EditedText(a + b, default) == EditedText(a, default) + EditedText(b, default)
    requires EditedFurther(a, default, aGrows) && EditedFurther(b, default, bGrows)
    ensures EditedFurther(a + b, default, aGrows || bGrows)
  {
  }
}
