/** scripts/install-code-as-harness.py, `updated_policy`: replacing or appending the managed
    block of a policy file. A text is the list of its lines, cut at newlines; the empty text
    is one empty line. */
module PolicyBlock {
  import opened Options

  datatype Line = Line(text: string)
  type Text = seq<Line>

  const POLICY_START := "<!-- CODEX-WORKBENCH-CODE-AS-HARNESS:START -->"
  const POLICY_END := "<!-- CODEX-WORKBENCH-CODE-AS-HARNESS:END -->"

  /** The marker, then blanks, tabs or carriage returns to the end of the line. */
  predicate IsMarker(line: Line, marker: string) {
    marker <= line.text && forall k | |marker| <= k < |line.text| :: line.text[k] in {' ', '\t', '\r'}
  }

  /** How the two kinds of marker line are recognized. */
  datatype Markers = Markers(start: Line -> bool, end: Line -> bool)

  function PolicyMarkers(): Markers {
    Markers(line => IsMarker(line, POLICY_START), line => IsMarker(line, POLICY_END))
  }

  /** An empty line is no marker. */
  ghost predicate Sensible(m: Markers) {
    !m.start(Line("")) && !m.end(Line(""))
  }

  lemma PolicyMarkersSensible()
    ensures Sensible(PolicyMarkers())
  {
  }

  /** The lines that match among the first `n`, in order. */
  function MatchesIn(text: Text, n: nat, marker: Line -> bool): (r: seq<nat>)
    requires n <= |text|
    ensures forall k | 0 <= k < |r| :: r[k] < n
  {
    if n == 0 then [] else MatchesIn(text, n - 1, marker) + if marker(text[n - 1]) then [n - 1] else []
  }

  /** The lines that match, in order. */
  function Matches(text: Text, marker: Line -> bool): (r: seq<nat>)
    ensures forall k | 0 <= k < |r| :: r[k] < |text|
  {
    MatchesIn(text, |text|, marker)
  }

  /** `None` is a refusal. */
  function UpdatedPolicy(m: Markers, current: Text, block: Text): Option<Text> {
    var starts, ends := Matches(current, m.start), Matches(current, m.end);
    if |starts| != |ends| || |starts| > 1 then None
    else if |starts| == 1 then
      if ends[0] < starts[0] then None
      else Some(current[..starts[0]] + block + current[ends[0] + 1..])
    else if current == [Line("")] then Some(block + [Line("")])
    else if current != [] && current[|current| - 1] == Line("") then Some(current + block + [Line("")])
    else Some(current + [Line("")] + block + [Line("")])
  }

  /** A block as `policy_block` builds it, when its body has no marker line. */
  ghost predicate WellFormed(m: Markers, block: Text) {
    && |block| >= 2
    && m.start(block[0]) && Free(block[1..], m.start)
    && m.end(block[|block| - 1]) && Free(block[..|block| - 1], m.end)
  }

  /** The real markers, around a body without marker lines. */
  lemma PolicyBlockWellFormed(body: Text)
    requires Free(body, PolicyMarkers().start) && Free(body, PolicyMarkers().end)
    ensures WellFormed(PolicyMarkers(), [Line(POLICY_START)] + body + [Line(POLICY_END)])
  {
    assert POLICY_START[37] == 'S' && POLICY_END[37] == 'E';
    var m, block := PolicyMarkers(), [Line(POLICY_START)] + body + [Line(POLICY_END)];
    assert !m.start(block[|block| - 1]) && !m.end(block[0]);
    assert block[1..] == body + [Line(POLICY_END)];
    assert block[..|block| - 1] == [Line(POLICY_START)] + body;
    FreeOne(Line(POLICY_END), m.start);
    FreeOne(Line(POLICY_START), m.end);
    FreeConcat(body, [Line(POLICY_END)], m.start);
    FreeConcat([Line(POLICY_START)], body, m.end);
  }

  predicate Free(text: Text, marker: Line -> bool) {
    Matches(text, marker) == []
  }

  predicate Clear(m: Markers, text: Text) {
    Free(text, m.start) && Free(text, m.end)
  }

  /** The only marker lines are those of a block of `size` lines that begins `at` a line. */
  predicate BlockAt(m: Markers, text: Text, at: nat, size: nat)
    requires size > 0
  {
    Matches(text, m.start) == [at] && Matches(text, m.end) == [at + size - 1]
  }

  /** The matches of a concatenation are those of its parts. */
  lemma {:induction false} MatchesConcat(a: Text, b: Text, n: nat, marker: Line -> bool)
    requires n <= |a + b|
    ensures n <= |a| ==> MatchesIn(a + b, n, marker) == MatchesIn(a, n, marker)
    ensures n >= |a| ==> && MatchesIn(a + b, n, marker) ==
                            MatchesIn(a, |a|, marker) + Shifted(MatchesIn(b, n - |a|, marker), |a|)
  {
    if n > 0 {
      MatchesConcat(a, b, n - 1, marker);
      if n > |a| {
        assert (a + b)[n - 1] == b[n - 1 - |a|];
      }
    }
  }

  function Shifted(s: seq<nat>, d: nat): seq<nat> {
    seq(|s|, k requires 0 <= k < |s| => s[k] + d)
  }

  lemma {:induction false} MatchesMean(text: Text, n: nat, marker: Line -> bool, k: nat)
    requires k < n <= |text|
    ensures k in MatchesIn(text, n, marker) <==> marker(text[k])
  {
    if k < n - 1 {
      MatchesMean(text, n - 1, marker, k);
    }
  }

  lemma {:induction false} MatchesNone(text: Text, n: nat, marker: Line -> bool)
    requires n <= |text|
    ensures MatchesIn(text, n, marker) == [] <==> forall k | 0 <= k < n :: !marker(text[k])
  {
    if n > 0 {
      MatchesNone(text, n - 1, marker);
    }
  }

  lemma ConcatMatches(a: Text, b: Text, marker: Line -> bool)
    ensures Matches(a + b, marker) == Matches(a, marker) + Shifted(Matches(b, marker), |a|)
  {
    MatchesConcat(a, b, |a + b|, marker);
  }

  /** One marker line between texts without any is found where it is. */
  lemma FoundAt(before: Text, line: Line, after: Text, marker: Line -> bool)
    requires Free(before, marker) && Free(after, marker) && marker(line)
    ensures Matches(before + [line] + after, marker) == [|before|]
  {
    ConcatMatches(before + [line], after, marker);
    ConcatMatches(before, [line], marker);
    assert MatchesIn([line], 0, marker) == [];
  }

  lemma FreeConcat(a: Text, b: Text, marker: Line -> bool)
    requires Free(a, marker) && Free(b, marker)
    ensures Free(a + b, marker)
  {
    ConcatMatches(a, b, marker);
  }

  lemma Regroup(a: Text, b: Text, c: Text, at: nat)
    requires at < |b|
    ensures a + b + c == (a + b[..at]) + [b[at]] + (b[at + 1..] + c)
  {
    assert b == b[..at] + [b[at]] + b[at + 1..];
  }

  lemma Sides(a: Text, b: Text, c: Text)
    ensures (a + b + c)[..|a|] == a && (a + b + c)[|a| + |b|..] == c
  {
  }

  /** A marker line inside a block that stands between texts without any. */
  lemma MarkerFound(before: Text, block: Text, after: Text, marker: Line -> bool, at: nat)
    requires at < |block| && marker(block[at])
    requires Free(block[..at], marker) && Free(block[at + 1..], marker)
    requires Free(before, marker) && Free(after, marker)
    ensures Matches(before + block + after, marker) == [|before| + at]
  {
    FreeConcat(before, block[..at], marker);
    FreeConcat(block[at + 1..], after, marker);
    Regroup(before, block, after, at);
    FoundAt(before + block[..at], block[at], block[at + 1..] + after, marker);
  }

  /** A block between texts without markers is found where it is. */
  lemma BlockFound(m: Markers, before: Text, block: Text, after: Text)
    requires WellFormed(m, block)
    requires Clear(m, before) && Clear(m, after)
    ensures BlockAt(m, before + block + after, |before|, |block|)
  {
    MarkerFound(before, block, after, m.start, 0);
    MarkerFound(before, block, after, m.end, |block| - 1);
  }

  /** The text around the place an update writes to: all before and after the block that is
      there, or the whole text, closed by an empty line, and a final newline. */
  function Before(m: Markers, current: Text): Text {
    var starts, ends := Matches(current, m.start), Matches(current, m.end);
    if |starts| == |ends| == 1 then current[..starts[0]]
    else if current == [Line("")] then []
    else if current != [] && current[|current| - 1] == Line("") then current
    else current + [Line("")]
  }

  function After(m: Markers, current: Text): Text {
    var starts, ends := Matches(current, m.start), Matches(current, m.end);
    if |starts| == |ends| == 1 then current[ends[0] + 1..] else [Line("")]
  }

  predicate Refused(m: Markers, current: Text) {
    var starts, ends := Matches(current, m.start), Matches(current, m.end);
    !(starts == [] && ends == []) && !(|starts| == 1 && |ends| == 1 && starts[0] <= ends[0])
  }

  lemma SurroundingsFree(m: Markers, current: Text)
    requires !Refused(m, current) && Sensible(m)
    ensures Clear(m, Before(m, current)) && Clear(m, After(m, current))
  {
    var starts, ends := Matches(current, m.start), Matches(current, m.end);
    if starts == [] {
      SurroundingsFreeNew(m, current, m.start);
      SurroundingsFreeNew(m, current, m.end);
    } else {
      FreeAround(current, m.start, starts[0], starts[0], ends[0] + 1);
      FreeAround(current, m.end, ends[0], starts[0], ends[0] + 1);
    }
  }

  lemma SurroundingsFreeNew(m: Markers, current: Text, marker: Line -> bool)
    requires Free(current, m.start) && Free(current, marker) && !marker(Line(""))
    ensures Free(Before(m, current), marker) && Free(After(m, current), marker)
  {
    FreeOne(Line(""), marker);
    FreeConcat(current, [Line("")], marker);
  }

  lemma FreeOne(line: Line, marker: Line -> bool)
    requires !marker(line)
    ensures Free([line], marker) && Free([], marker)
  {
    assert MatchesIn([line], 0, marker) == [];
  }

  /** With its only marker line cut out, a text has none left. */
  lemma FreeAround(text: Text, marker: Line -> bool, i: nat, lo: nat, hi: nat)
    requires Matches(text, marker) == [i] && lo <= i < hi <= |text|
    ensures Free(text[..lo], marker) && Free(text[hi..], marker)
  {
    assert forall k | 0 <= k < |text| && k != i :: !marker(text[k]) by {
      forall k | 0 <= k < |text| && k != i
        ensures !marker(text[k])
      {
        MatchesMean(text, |text|, marker, k);
      }
    }
    MatchesNone(text[..lo], lo, marker);
    MatchesNone(text[hi..], |text| - hi, marker);
  }

  /** An update is refused exactly when the marker lines are neither absent nor one of each in
      order; otherwise it writes the block between the surroundings, which hold no marker. */
  lemma UpdateWrites(m: Markers, current: Text, block: Text)
    ensures UpdatedPolicy(m, current, block) ==
            if Refused(m, current) then None
            else Some(Before(m, current) + block + After(m, current))
  {
    assert [] + block == block;
  }

  /** After an update there is exactly one marker line of each kind, around the block. */
  lemma OneBlock(m: Markers, current: Text, block: Text)
    requires Sensible(m) && WellFormed(m, block) && UpdatedPolicy(m, current, block).Some?
    ensures BlockAt(m, UpdatedPolicy(m, current, block).value, |Before(m, current)|, |block|)
  {
    UpdateWrites(m, current, block);
    OneBlockPlaced(m, current, block);
  }

  lemma OneBlockPlaced(m: Markers, current: Text, block: Text)
    requires Sensible(m) && WellFormed(m, block) && !Refused(m, current)
    ensures var before, after := Before(m, current), After(m, current);
            BlockAt(m, before + block + after, |before|, |block|)
  {
    SurroundingsFree(m, current);
    BlockFound(m, Before(m, current), block, After(m, current));
  }

  /** The last update wins, and leaves the surroundings alone; with the same block twice, it
      is idempotent. */
  lemma LastUpdateWins(m: Markers, current: Text, first: Text, second: Text)
    requires Sensible(m) && WellFormed(m, first) && UpdatedPolicy(m, current, first).Some?
    ensures UpdatedPolicy(m, UpdatedPolicy(m, current, first).value, second) == UpdatedPolicy(m, current, second)
    ensures Before(m, UpdatedPolicy(m, current, first).value) == Before(m, current)
    ensures After(m, UpdatedPolicy(m, current, first).value) == After(m, current)
  {
    OneBlock(m, current, first);
    UpdateWrites(m, current, first);
    UpdateWrites(m, current, second);
    var before, after := Before(m, current), After(m, current);
    var r := before + first + after;
    Sides(before, first, after);
    UpdateWrites(m, r, second);
  }
}
