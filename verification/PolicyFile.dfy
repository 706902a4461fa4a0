/** scripts/install-code-as-harness.py: how a policy file is read and written around
    `updated_policy`. Reading turns every carriage return, with the newline after it if there is
    one, into a newline; the result is written as it is. */
module PolicyFile {
  import opened Options
  import opened PolicyBlock

  /** Universal newlines. */
  function Decoded(s: string): string
    decreases |s|
  {
    if s == "" then ""
    else if s[0] != '\r' then [s[0]] + Decoded(s[1..])
    else "\n" + Decoded(s[if |s| > 1 && s[1] == '\n' then 2 else 1..])
  }

  /** The text of a list of lines. */
  function Written(text: Text): string {
    if text == [] then ""
    else if |text| == 1 then text[0].text
    else text[0].text + "\n" + Written(text[1..])
  }

  /** A line as it stands in the file, with what ends it. */
  datatype RawLine = RawLine(line: Line, ending: string)

  function Read(raw: string): (lines: seq<RawLine>)
    ensures lines != []
    decreases |raw|
  {
    if raw == "" then [RawLine(Line(""), "")]
    else if raw[0] == '\n' then [RawLine(Line(""), "\n")] + Read(raw[1..])
    else if raw[0] == '\r' then
      if |raw| > 1 && raw[1] == '\n' then [RawLine(Line(""), "\r\n")] + Read(raw[2..])
      else [RawLine(Line(""), "\r")] + Read(raw[1..])
    else
      var rest := Read(raw[1..]);
      [RawLine(Line([raw[0]] + rest[0].line.text), rest[0].ending)] + rest[1..]
  }

  function Texts(lines: seq<RawLine>): Text {
    seq(|lines|, k requires 0 <= k < |lines| => lines[k].line)
  }

  function Raw(lines: seq<RawLine>): string {
    if lines == [] then "" else lines[0].line.text + lines[0].ending + Raw(lines[1..])
  }

  predicate Plain(s: string) {
    forall k | 0 <= k < |s| :: s[k] != '\n' && s[k] != '\r'
  }

  predicate IsEnding(s: string) {
    s == "\n" || s == "\r" || s == "\r\n"
  }

  /** Lines as they stand in a file: all but the last are ended, and no carriage return is cut
      off from its newline. */
  predicate FileLines(lines: seq<RawLine>) {
    && lines != [] && Plain(lines[0].line.text)
    && if |lines| == 1 then lines[0].ending == ""
       else
         && IsEnding(lines[0].ending) && FileLines(lines[1..])
         && (lines[0].ending == "\r" && lines[1].line.text == "" ==> lines[1].ending != "\n")
  }

  lemma {:induction false} ReadIsFile(raw: string)
    ensures FileLines(Read(raw)) && Raw(Read(raw)) == raw
    decreases |raw|
  {
    if raw == "" {
      assert Raw([RawLine(Line(""), "")]) == "" + "" + Raw([]);
    } else if raw[0] == '\r' && |raw| > 1 && raw[1] == '\n' {
      ReadIsFile(raw[2..]);
      ReadEnded("\r\n", raw[2..]);
      assert raw == "\r\n" + raw[2..];
    } else if raw[0] in {'\n', '\r'} {
      ReadIsFile(raw[1..]);
      ReadEnded([raw[0]], raw[1..]);
      assert raw == [raw[0]] + raw[1..];
    } else {
      ReadIsFile(raw[1..]);
      ReadChar(raw[0], Read(raw[1..]));
      assert raw == [raw[0]] + raw[1..];
    }
  }

  lemma {:induction false} ReadEnded(ending: string, rest: string)
    requires IsEnding(ending) && FileLines(Read(rest)) && Raw(Read(rest)) == rest
    requires ending == "\r" ==> rest == "" || rest[0] != '\n'
    ensures var lines := [RawLine(Line(""), ending)] + Read(rest);
            FileLines(lines) && Raw(lines) == ending + rest
  {
    var lines := [RawLine(Line(""), ending)] + Read(rest);
    assert lines[1..] == Read(rest);
    assert "" + ending == ending;
  }

  lemma {:induction false} ReadChar(c: char, rest: seq<RawLine>)
    requires c != '\n' && c != '\r' && FileLines(rest)
    ensures var lines := [RawLine(Line([c] + rest[0].line.text), rest[0].ending)] + rest[1..];
            FileLines(lines) && Raw(lines) == [c] + Raw(rest)
  {
    var lines := [RawLine(Line([c] + rest[0].line.text), rest[0].ending)] + rest[1..];
    assert lines[1..] == rest[1..];
    OneMore(c, rest[0].line.text, rest[0].ending, Raw(rest[1..]));
  }

  lemma {:induction false} OneMore(c: char, text: string, ending: string, rest: string)
    ensures ([c] + text) + ending + rest == [c] + (text + ending + rest)
    ensures c != '\n' && c != '\r' && Plain(text) ==> Plain([c] + text)
  {
  }

  /** Decoding changes exactly the texts with a carriage return. */
  lemma {:induction false} DecodedSame(s: string)
    ensures |Decoded(s)| <= |s| && '\r' !in Decoded(s)
    ensures Decoded(s) == s <==> '\r' !in s
    decreases |s|
  {
    if s != "" {
      var rest := s[if s[0] == '\r' && |s| > 1 && s[1] == '\n' then 2 else 1..];
      DecodedSame(rest);
      assert Decoded(s)[1..] == Decoded(rest);
      assert s == [s[0]] + s[1..];
    }
  }

  lemma {:induction false} DecodedPlain(t: string, s: string)
    requires Plain(t)
    ensures Decoded(t + s) == t + Decoded(s)
  {
    if t != "" {
      assert t[0] in t && (t + s)[0] == t[0] && (t + s)[1..] == t[1..] + s;
      DecodedPlain(t[1..], s);
    } else {
      assert t + s == s;
    }
  }

  lemma {:induction false} DecodedEnding(ending: string, s: string)
    requires IsEnding(ending) && (ending == "\r" ==> s == "" || s[0] != '\n')
    ensures Decoded(ending + s) == "\n" + Decoded(s)
  {
    assert (ending + s)[|ending|..] == s;
  }

  /** What decoding a file gives, in lines. */
  lemma {:induction false} DecodesTo(lines: seq<RawLine>)
    requires FileLines(lines)
    ensures Decoded(Raw(lines)) == Written(Texts(lines))
  {
    var first, rest := lines[0], lines[1..];
    if rest == [] {
      assert Raw(lines) == first.line.text + "";
      DecodedPlain(first.line.text, "");
    } else {
      DecodesTo(rest);
      DecodedFirst(first, rest);
      assert Texts(lines)[1..] == Texts(rest);
    }
  }

  lemma {:induction false} DecodedFirst(first: RawLine, rest: seq<RawLine>)
    requires Plain(first.line.text) && IsEnding(first.ending) && FileLines(rest)
    requires first.ending == "\r" && rest[0].line.text == "" ==> rest[0].ending != "\n"
    ensures Decoded(first.line.text + first.ending + Raw(rest)) == first.line.text + "\n" + Decoded(Raw(rest))
  {
    RawStart(rest);
    DecodedLine(first.line.text, first.ending, Raw(rest));
  }

  lemma {:induction false} DecodedLine(text: string, ending: string, tail: string)
    requires Plain(text) && IsEnding(ending) && (ending == "\r" ==> tail == "" || tail[0] != '\n')
    ensures Decoded(text + ending + tail) == text + "\n" + Decoded(tail)
  {
    DecodedEnding(ending, tail);
    Associate(text, ending, tail);
    DecodedPlain(text, ending + tail);
    Associate(text, "\n", Decoded(tail));
  }

  lemma {:induction false} RawStart(lines: seq<RawLine>)
    requires FileLines(lines)
    ensures var raw := Raw(lines); raw != "" && raw[0] == '\n' ==> lines[0].line.text == "" && lines[0].ending == "\n"
  {
  }

  // ---- the file around the block ----

  const BLANK := RawLine(Line(""), "")

  lemma {:induction false} CutBefore(lines: seq<RawLine>, k: nat)
    requires FileLines(lines) && k < |lines|
    ensures FileLines(lines[..k] + [BLANK]) && Raw(lines[..k] + [BLANK]) == Raw(lines[..k])
  {
    var cut := lines[..k] + [BLANK];
    if k == 0 {
      assert cut == [BLANK];
    } else {
      CutBefore(lines[1..], k - 1);
      assert cut[1..] == lines[1..][..k - 1] + [BLANK] && lines[..k][1..] == lines[1..][..k - 1];
    }
  }

  lemma {:induction false} CutAfter(lines: seq<RawLine>, k: nat)
    requires FileLines(lines) && k < |lines|
    ensures FileLines([lines[k].(line := Line(""))] + lines[k + 1..])
  {
    if k > 0 {
      CutAfter(lines[1..], k - 1);
      assert lines[1..][k..] == lines[k + 1..];
    } else {
      assert ([lines[0].(line := Line(""))] + lines[1..])[1..] == lines[1..];
    }
  }

  lemma {:induction false} RawConcat(a: seq<RawLine>, b: seq<RawLine>)
    ensures Raw(a + b) == Raw(a) + Raw(b)
  {
    if a == [] {
      assert a + b == b;
    } else {
      RawConcat(a[1..], b);
      assert (a + b)[1..] == a[1..] + b;
      Associate(a[0].line.text + a[0].ending, Raw(a[1..]), Raw(b));
    }
  }

  lemma {:induction false} Associate(a: string, b: string, c: string)
    ensures a + b + c == a + (b + c)
  {
  }

  lemma {:induction false} WrittenAfter(a: Text, b: Text)
    requires b != []
    ensures Written(a + b) == Written(a + [Line("")]) + Written(b)
  {
    if a == [] {
      assert a + b == b && a + [Line("")] == [Line("")];
    } else {
      WrittenAfter(a[1..], b);
      assert (a + b)[1..] == a[1..] + b && (a + [Line("")])[1..] == a[1..] + [Line("")];
    }
  }

  lemma {:induction false} WrittenBefore(a: Text, b: Text)
    requires a != []
    ensures Written(a + b) == Written(a) + Written([Line("")] + b)
  {
    assert ([Line("")] + b)[1..] == b;
    if |a| == 1 {
      assert (a + b)[1..] == b;
    } else {
      WrittenBefore(a[1..], b);
      assert (a + b)[1..] == a[1..] + b;
    }
  }

  /** What is staged for a policy file that holds `raw`; `None` is a refusal. */
  function UpdatedFile(m: Markers, raw: string, block: Text): Option<string> {
    var u := UpdatedPolicy(m, Texts(Read(raw)), block);
    if u.None? then None else Some(Written(u.value))
  }

  /** The parts of a file that an update is to leave alone: all before and after the block that
      is there, or the whole file. */
  datatype Outside = Outside(before: string, after: string)

  function OutsideOf(m: Markers, raw: string): Outside {
    var lines := Read(raw);
    var starts, ends := Matches(Texts(lines), m.start), Matches(Texts(lines), m.end);
    if |starts| == |ends| == 1 then
      Outside(Raw(lines[..starts[0]]), lines[ends[0]].ending + Raw(lines[ends[0] + 1..]))
    else Outside(raw, "")
  }

  /** What an update puts between them. */
  function Inserted(m: Markers, raw: string, block: Text): string {
    var text := Texts(Read(raw));
    if |Matches(text, m.start)| == |Matches(text, m.end)| == 1 then Written(block)
    else (if raw == "" then "" else if text[|text| - 1] == Line("") then "\n" else "\n\n") + Written(block) + "\n"
  }

  lemma {:induction false} OutsideIsThere(m: Markers, raw: string) returns (replaced: string)
    requires !Refused(m, Texts(Read(raw)))
    ensures raw == OutsideOf(m, raw).before + replaced + OutsideOf(m, raw).after
  {
    ReadIsFile(raw);
    replaced := "";
    var text := Texts(Read(raw));
    if |Matches(text, m.start)| == 1 {
      replaced := RawAround(Read(raw), Matches(text, m.start)[0], Matches(text, m.end)[0]);
    }
  }

  lemma {:induction false} RawAround(lines: seq<RawLine>, s: nat, e: nat) returns (replaced: string)
    requires s <= e < |lines|
    ensures Raw(lines) == Raw(lines[..s]) + replaced + (lines[e].ending + Raw(lines[e + 1..]))
  {
    RawConcat(lines[..s], lines[s..]);
    RawConcat(lines[s..e], lines[e..]);
    assert lines[..s] + lines[s..] == lines && lines[s..e] + lines[e..] == lines[s..];
    assert lines[e..][1..] == lines[e + 1..];
    replaced := Raw(lines[s..e]) + lines[e].line.text;
    FourParts(Raw(lines[..s]), Raw(lines[s..e]), lines[e].line.text, lines[e].ending, Raw(lines[e + 1..]));
  }

  lemma {:induction false} FourParts(a: string, b: string, c: string, d: string, e: string)
    ensures a + (b + (c + d + e)) == a + (b + c) + (d + e)
  {
  }

  /** An update puts the block between the decoded parts of the file. */
  lemma {:induction false} UpdateDecodes(m: Markers, raw: string, block: Text)
    requires block != [] && !Refused(m, Texts(Read(raw)))
    ensures var o := OutsideOf(m, raw);
            UpdatedFile(m, raw, block) == Some(Decoded(o.before) + Inserted(m, raw, block) + Decoded(o.after))
  {
    UpdateWrites(m, Texts(Read(raw)), block);
    if |Matches(Texts(Read(raw)), m.start)| == 1 {
      BlockReplaced(m, raw, block);
    } else {
      BlockAppended(m, raw, block);
    }
  }

  lemma {:induction false} BlockReplaced(m: Markers, raw: string, block: Text)
    requires var text := Texts(Read(raw)); |Matches(text, m.start)| == |Matches(text, m.end)| == 1
    requires block != []
    ensures var text, o := Texts(Read(raw)), OutsideOf(m, raw);
            Written(Before(m, text) + block + After(m, text)) == Decoded(o.before) + Written(block) + Decoded(o.after)
  {
    ReadIsFile(raw);
    var text := Texts(Read(raw));
    DecodedAround(Read(raw), text, block, Matches(text, m.start)[0], Matches(text, m.end)[0]);
  }

  lemma {:induction false} DecodedAround(lines: seq<RawLine>, text: Text, block: Text, s: nat, e: nat)
    requires FileLines(lines) && text == Texts(lines) && block != [] && s < |lines| && e < |lines|
    ensures Written(text[..s] + block + text[e + 1..]) ==
            Decoded(Raw(lines[..s])) + Written(block) + Decoded(lines[e].ending + Raw(lines[e + 1..]))
  {
    DecodedBefore(lines, text, s);
    DecodedAfter(lines, text, e);
    WrittenAround(text[..s], block, text[e + 1..]);
  }

  lemma {:induction false} DecodedBefore(lines: seq<RawLine>, text: Text, s: nat)
    requires FileLines(lines) && text == Texts(lines) && s < |lines|
    ensures Decoded(Raw(lines[..s])) == Written(text[..s] + [Line("")])
  {
    CutBefore(lines, s);
    DecodesTo(lines[..s] + [BLANK]);
    assert Texts(lines[..s] + [BLANK]) == text[..s] + [Line("")];
  }

  lemma {:induction false} DecodedAfter(lines: seq<RawLine>, text: Text, e: nat)
    requires FileLines(lines) && text == Texts(lines) && e < |lines|
    ensures Decoded(lines[e].ending + Raw(lines[e + 1..])) == Written([Line("")] + text[e + 1..])
  {
    var cut := [lines[e].(line := Line(""))] + lines[e + 1..];
    CutAfter(lines, e);
    DecodesTo(cut);
    assert Texts(cut) == [Line("")] + text[e + 1..] && cut[1..] == lines[e + 1..];
    assert "" + lines[e].ending == lines[e].ending;
  }

  lemma {:induction false} WrittenAround(a: Text, b: Text, c: Text)
    requires b != []
    ensures Written(a + b + c) == Written(a + [Line("")]) + Written(b) + Written([Line("")] + c)
  {
    assert a + b + c == a + (b + c);
    WrittenAfter(a, b + c);
    WrittenBefore(b, c);
  }

  lemma {:induction false} BlockAppended(m: Markers, raw: string, block: Text)
    requires var text := Texts(Read(raw)); Matches(text, m.start) == [] && Matches(text, m.end) == []
    requires block != []
    ensures var text := Texts(Read(raw));
            Written(Before(m, text) + block + After(m, text)) == Decoded(raw) + Inserted(m, raw, block) + ""
  {
    ReadIsFile(raw);
    DecodesTo(Read(raw));
    EmptyFile(Read(raw));
    var text, decoded := Texts(Read(raw)), Decoded(raw);
    AppendedTo(text, block, decoded);
    AppendedAs(decoded, Written(block));
  }

  lemma {:induction false} AppendedAs(a: string, b: string)
    ensures a + "\n" + b + "\n" == a + ("\n" + b + "\n") + ""
    ensures a + "\n\n" + b + "\n" == a + ("\n\n" + b + "\n") + ""
    ensures "" + ("" + b + "\n") + "" == b + "\n"
  {
  }

  lemma {:induction false} EmptyFile(lines: seq<RawLine>)
    requires FileLines(lines)
    ensures Texts(lines) == [Line("")] <==> Raw(lines) == ""
  {
    assert Texts(lines)[0] == lines[0].line && |Texts(lines)| == |lines|;
    assert Raw(lines) == lines[0].line.text + lines[0].ending + Raw(lines[1..]);
    if |lines| == 1 {
      assert Texts(lines) == [lines[0].line];
    }
  }

  lemma {:induction false} AppendedTo(text: Text, block: Text, decoded: string)
    requires text != [] && block != [] && Written(text) == decoded
    ensures Written([] + block + [Line("")]) == Written(block) + "\n"
    ensures Written(text + block + [Line("")]) == decoded + "\n" + Written(block) + "\n"
    ensures Written(text + [Line("")] + block + [Line("")]) == decoded + "\n\n" + Written(block) + "\n"
  {
    Blanks(text);
    WrittenAround([], block, [Line("")]);
    WrittenAround(text, block, [Line("")]);
    WrittenAround(text + [Line("")], block, [Line("")]);
  }

  lemma {:induction false} Blanks(text: Text)
    requires text != []
    ensures [] + [Line("")] == [Line("")] && Written([Line("")]) == "" && Written([Line("")] + [Line("")]) == "\n"
    ensures Written(text + [Line("")]) == Written(text) + "\n"
    ensures Written(text + [Line("")] + [Line("")]) == Written(text) + "\n\n"
  {
    assert ([Line("")] + [Line("")])[1..] == [Line("")];
    WrittenBefore(text, [Line("")]);
    WrittenBefore(text + [Line("")], [Line("")]);
  }

  /** The rest of the file survives an update, byte for byte, exactly if it holds no carriage
      return. */
  lemma {:induction false} OutsideSurvives(m: Markers, raw: string, block: Text)
    requires block != [] && !Refused(m, Texts(Read(raw)))
    ensures var o := OutsideOf(m, raw);
            UpdatedFile(m, raw, block) == Some(o.before + Inserted(m, raw, block) + o.after) <==>
            '\r' !in o.before && '\r' !in o.after
  {
    var o := OutsideOf(m, raw);
    UpdateDecodes(m, raw, block);
    DecodedSame(o.before);
    DecodedSame(o.after);
    SamePieces(Decoded(o.before), o.before, Inserted(m, raw, block), Decoded(o.after), o.after);
  }

  lemma {:induction false} SamePieces(a: string, a': string, middle: string, b: string, b': string)
    requires |a| <= |a'| && |b| <= |b'|
    ensures a + middle + b == a' + middle + b' <==> a == a' && b == b'
  {
    if a + middle + b == a' + middle + b' {
      assert |a| == |a'| && |b| == |b'|;
      assert (a + middle + b)[..|a|] == a && (a' + middle + b')[..|a|] == a';
      assert (a + middle + b)[|a + middle|..] == b && (a' + middle + b')[|a + middle|..] == b';
    }
  }

  // ---- a second update ----

  lemma {:induction false} ReadLine(text: string, rest: string)
    requires Plain(text)
    ensures Read(text + "\n" + rest) == [RawLine(Line(text), "\n")] + Read(rest)
  {
    var raw := text + "\n" + rest;
    if text == "" {
      assert raw[1..] == rest;
    } else {
      ReadLine(text[1..], rest);
      assert raw[1..] == text[1..] + "\n" + rest;
      assert [text[0]] + text[1..] == text;
    }
  }

  lemma {:induction false} ReadLast(text: string)
    requires Plain(text)
    ensures Read(text) == [RawLine(Line(text), "")]
  {
    if text != "" {
      ReadLast(text[1..]);
      assert [text[0]] + text[1..] == text;
    }
  }

  /** What is written is read back as it was. */
  lemma {:induction false} ReadBack(text: Text)
    requires text != [] && AllPlain(text)
    ensures Texts(Read(Written(text))) == text
  {
    if |text| == 1 {
      ReadLast(text[0].text);
    } else {
      ReadBack(text[1..]);
      ReadLine(text[0].text, Written(text[1..]));
      TextsFirst(RawLine(text[0], "\n"), Read(Written(text[1..])));
      assert [text[0]] + text[1..] == text;
    }
  }

  lemma {:induction false} TextsFirst(first: RawLine, rest: seq<RawLine>)
    ensures Texts([first] + rest) == [first.line] + Texts(rest)
  {
  }

  lemma {:induction false} TextsPlain(lines: seq<RawLine>, k: nat)
    requires FileLines(lines) && k < |lines|
    ensures Plain(lines[k].line.text)
  {
    if k > 0 {
      TextsPlain(lines[1..], k - 1);
    }
  }

  /** The last update of a file wins; with the same block twice, the second changes nothing. */
  lemma {:induction false} LastFileUpdateWins(m: Markers, raw: string, first: Text, second: Text)
    requires Sensible(m) && WellFormed(m, first) && UpdatedFile(m, raw, first).Some?
    requires AllPlain(first)
    ensures UpdatedFile(m, UpdatedFile(m, raw, first).value, second) == UpdatedFile(m, raw, second)
  {
    var text := Texts(Read(raw));
    LastUpdateWins(m, text, first, second);
    FileTextPlain(raw);
    UpdatedPlain(m, text, first);
    ReadBack(UpdatedPolicy(m, text, first).value);
  }

  predicate AllPlain(text: Text) {
    forall k | 0 <= k < |text| :: Plain(text[k].text)
  }

  lemma {:induction false} FileTextPlain(raw: string)
    ensures AllPlain(Texts(Read(raw)))
  {
    ReadIsFile(raw);
    var lines := Read(raw);
    forall k | 0 <= k < |lines|
      ensures Plain(lines[k].line.text)
    {
      TextsPlain(lines, k);
    }
  }

  lemma {:induction false} UpdatedPlain(m: Markers, text: Text, block: Text)
    requires AllPlain(text) && AllPlain(block) && block != [] && UpdatedPolicy(m, text, block).Some?
    ensures AllPlain(UpdatedPolicy(m, text, block).value) && UpdatedPolicy(m, text, block).value != []
  {
    UpdateWrites(m, text, block);
    SidesPlain(m, text);
    PlainAround(Before(m, text), block, After(m, text));
  }

  lemma {:induction false} SidesPlain(m: Markers, text: Text)
    requires AllPlain(text)
    ensures AllPlain(Before(m, text)) && AllPlain(After(m, text))
  {
    var starts, ends := Matches(text, m.start), Matches(text, m.end);
    if |starts| == |ends| == 1 {
      SlicePlain(text, 0, starts[0]);
      SlicePlain(text, ends[0] + 1, |text|);
    } else {
      PlainAround(text, [Line("")], []);
      assert text + [Line("")] + [] == text + [Line("")];
    }
  }

  lemma {:induction false} SlicePlain(text: Text, lo: nat, hi: nat)
    requires AllPlain(text) && lo <= hi <= |text|
    ensures AllPlain(text[lo..hi])
  {
  }

  lemma {:induction false} PlainAround(a: Text, b: Text, c: Text)
    requires AllPlain(a) && AllPlain(b) && AllPlain(c) && b != []
    ensures AllPlain(a + b + c) && a + b + c != []
  {
  }

  /** A file whose lines end in carriage returns and newlines loses the former. */
  lemma {:induction false} ReturnsAreLost(block: Text)
    requires block != []
    ensures var m, raw := PolicyMarkers(), "x\r\n";
            UpdatedFile(m, raw, block) == Some("x\n" + "\n" + Written(block) + "\n")
  {
    var raw := "x\r\n";
    ReadsReturn(raw);
    NoMarkers(PolicyMarkers().start);
    NoMarkers(PolicyMarkers().end);
    BlockAppended(PolicyMarkers(), raw, block);
    UpdateWrites(PolicyMarkers(), Texts(Read(raw)), block);
    AppendedAs("x\n", Written(block));
  }

  lemma {:induction false} NoMarkers(marker: Line -> bool)
    requires !marker(Line("x")) && !marker(Line(""))
    ensures Matches([Line("x"), Line("")], marker) == []
  {
    FreeOne(Line("x"), marker);
    FreeOne(Line(""), marker);
    FreeConcat([Line("x")], [Line("")], marker);
    assert [Line("x")] + [Line("")] == [Line("x"), Line("")];
  }

  lemma {:induction false} ReadsReturn(raw: string)
    requires raw == "x\r\n"
    ensures Texts(Read(raw)) == [Line("x"), Line("")] && Decoded(raw) == "x\n"
  {
    assert raw[1..] == "\r\n" && raw[1..][2..] == "";
    var rest := Read(raw[1..]);
    assert rest == [RawLine(Line(""), "\r\n"), BLANK] by {
      assert Read("") == [BLANK];
    }
    assert [raw[0]] + "" == "x";
    assert Read(raw) == [RawLine(Line("x"), "\r\n"), BLANK];
    assert Texts(Read(raw))[0] == Line("x") && Texts(Read(raw))[1] == Line("");
    assert Decoded(raw[1..]) == "\n" + Decoded("");
  }
}
