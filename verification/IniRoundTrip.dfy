/** Accepted tables are well-formed, and every well-formed table can be written out and read back. */
module IniRoundTrip {
  import opened Machine
  import opened IniText
  import opened IniModel

  // ---- well-formed tables ----

  /** No character that would end the line, the string, or start a comment. */
  ghost predicate Plain(s: string) {
    forall k :: 0 <= k < |s| ==> s[k] != '\0' && s[k] != '\n' && s[k] != '#' && s[k] != ';'
  }

  ghost predicate Without(s: string, c: char) {
    forall k :: 0 <= k < |s| ==> s[k] != c
  }

  ghost predicate GoodName(s: string) {
    s != [] && Trimmed(s) && Plain(s) && Without(s, ']')
  }

  ghost predicate GoodKey(s: string) {
    s != [] && Trimmed(s) && Plain(s) && Without(s, '=') && s[0] != '['
  }

  ghost predicate GoodValue(s: string) {
    Trimmed(s) && Plain(s)
  }

  ghost predicate GoodPair(p: Pair) {
    GoodKey(p.key) && GoodValue(p.value) && |p.key| <= 127 && |p.value| <= 127
  }

  ghost predicate GoodPairs(pairs: seq<Pair>) {
    && |pairs| <= 16
    && (forall i :: 0 <= i < |pairs| ==> GoodPair(pairs[i]))
    && forall i, j :: 0 <= i < j < |pairs| ==> pairs[i].key != pairs[j].key
  }

  ghost predicate GoodSection(s: Section) {
    GoodName(s.name) && |s.name| <= 127 && GoodPairs(s.pairs)
  }

  ghost predicate WellFormed(t: Table) {
    && |t| <= 24
    && (forall i :: 0 <= i < |t| ==> GoodSection(t[i]))
    && forall i, j :: 0 <= i < j < |t| ==> t[i].name != t[j].name
  }

  // ---- accepted tables are well-formed ----

  ghost predicate GoodLine(l: Line) {
    match l
    case Header(name) => GoodName(name)
    case Assignment(key, value) => GoodKey(key) && GoodValue(value)
    case _ => true
  }

  lemma PlainPart(s: string, b: nat, e: nat)
    requires Plain(s) && b <= e <= |s|
    ensures Plain(s[b..e])
  {
  }

  lemma TrimPlain(s: string)
    requires Plain(s)
    ensures Plain(Trim(s))
  {
  }

  lemma TrimWithout(s: string, c: char)
    requires Without(s, c)
    ensures Without(Trim(s), c)
  {
  }

  /** Of a line only the last character may be a newline, and trimming removes it. */
  ghost predicate OneLine(s: string) {
    forall k :: 0 <= k < |s| - 1 ==> s[k] != '\n'
  }

  lemma StrippedPlain(visible: string)
    requires OneLine(visible) && Without(visible, NUL)
    ensures Plain(Trim(StripComment(visible)))
  {
    var s := StripComment(visible);
    var b := WordAt(s, 0);
    var e := WordEnd(s, b, |s|);
    forall k | b <= k < e
      ensures s[k] != '\n'
    {
      assert s[k] == visible[k];
      assert IsSpace('\n');
    }
    var r := Trim(s);
    forall k | 0 <= k < |r|
      ensures r[k] != NUL && r[k] != '\n' && !StartsComment(r[k])
    {
      assert r[k] == s[b + k] == visible[b + k];
    }
  }

  lemma HeaderGood(s: string)
    requires s != [] && s[0] == '[' && Plain(s)
    ensures GoodLine(ClassifyHeader(s))
  {
    var close := IndexOf(s, ']', 0);
    if close < |s| {
      PlainPart(s, 1, close);
      TrimPlain(s[1..close]);
      TrimWithout(s[1..close], ']');
    }
  }

  /** Trimming keeps a first character that is no space. */
  lemma FirstKept(s: string)
    requires s != [] && !IsSpace(s[0])
    ensures Trim(s) != [] && Trim(s)[0] == s[0]
  {
    var e := WordEnd(s, 0, |s|);
    assert WordAt(s, 0) == 0;
    assert IsSpace(s[0]) || e > 0;
  }

  lemma KeyGood(s: string, eq: nat)
    requires s != [] && s[0] != '[' && !IsSpace(s[0]) && Plain(s) && eq == IndexOf(s, '=', 0) < |s|
    ensures Trim(s[..eq]) != [] ==> GoodKey(Trim(s[..eq]))
  {
    PlainPart(s, 0, eq);
    TrimPlain(s[..eq]);
    TrimWithout(s[..eq], '=');
    TrimIsTrimmed(s[..eq]);
    if eq > 0 {
      FirstKept(s[..eq]);
    }
  }

  lemma ValueGood(s: string, eq: nat)
    requires Plain(s) && eq < |s|
    ensures GoodValue(Trim(s[eq + 1..]))
  {
    PlainPart(s, eq + 1, |s|);
    TrimPlain(s[eq + 1..]);
    TrimIsTrimmed(s[eq + 1..]);
  }

  lemma AssignmentGood(s: string)
    requires s != [] && s[0] != '[' && !IsSpace(s[0]) && Plain(s)
    ensures GoodLine(ClassifyAssignment(s))
  {
    var eq := IndexOf(s, '=', 0);
    if eq < |s| {
      KeyGood(s, eq);
      ValueGood(s, eq);
    }
  }

  lemma ClassifyGood(visible: string)
    requires OneLine(visible) && Without(visible, NUL)
    ensures GoodLine(Classify(visible))
  {
    var s := Trim(StripComment(visible));
    StrippedPlain(visible);
    TrimIsTrimmed(StripComment(visible));
    if s != [] {
      if s[0] == '[' {
        HeaderGood(s);
      } else {
        AssignmentGood(s);
      }
    }
  }

  lemma ChunkIsOneLine(text: string)
    ensures OneLine(Visible(text[..ChunkLength(text)])) && Without(Visible(text[..ChunkLength(text)]), NUL)
  {
  }

  lemma {:induction false} LinesGood(text: string)
    ensures forall i :: 0 <= i < |Lines(text)| ==> GoodLine(Lines(text)[i])
  {
    if text != [] {
      var n := ChunkLength(text);
      ChunkIsOneLine(text);
      ClassifyGood(Visible(text[..n]));
      LinesGood(text[n..]);
    }
  }

  lemma OpenKeeps(t: Table, name: string)
    requires WellFormed(t) && GoodName(name) && Open(t, name).Success?
    ensures WellFormed(Open(t, name).value)
  {
    assert GoodSection(Section(name, []));
  }

  lemma PairsKept(pairs: seq<Pair>, p: Pair)
    requires GoodPairs(pairs) && GoodPair(p) && KeyIndex(pairs, p.key, 0) == |pairs| < MAX_KEYS
    ensures GoodPairs(pairs + [p])
  {
  }

  lemma AssignKeeps(t: Table, key: string, value: string)
    requires WellFormed(t) && GoodKey(key) && GoodValue(value) && Assign(t, key, value).Success?
    ensures WellFormed(Assign(t, key, value).value)
  {
    var cur := t[|t| - 1];
    PairsKept(cur.pairs, Pair(key, value));
    assert GoodSection(Section(cur.name, cur.pairs + [Pair(key, value)]));
  }

  lemma {:induction false} BuildWellFormed(lines: seq<Line>)
    requires (forall i :: 0 <= i < |lines| ==> GoodLine(lines[i])) && Build(lines).Success?
    ensures WellFormed(Build(lines).value)
  {
    if lines != [] {
      var front, last := lines[..|lines| - 1], lines[|lines| - 1];
      BuildWellFormed(front);
      assert GoodLine(last);
      match last
      case Header(name) => OpenKeeps(Build(front).value, name);
      case Assignment(key, value) => AssignKeeps(Build(front).value, key, value);
      case Blank =>
    }
  }

  /** Every table an accepted file produces is well-formed. */
  lemma LoadedIsWellFormed(text: string)
    requires Load(text).Success?
    ensures WellFormed(Load(text).value)
  {
    LinesGood(text);
    BuildWellFormed(Lines(text));
  }

  // ---- writing a table out ----

  function WritePairs(pairs: seq<Pair>): seq<string> {
    if pairs == [] then []
    else
      var last := pairs[|pairs| - 1];
      WritePairs(pairs[..|pairs| - 1]) + [last.key + " = " + last.value + "\n"]
  }

  function WriteLines(t: Table): seq<string> {
    if t == [] then []
    else
      var last := t[|t| - 1];
      WriteLines(t[..|t| - 1]) + ["[" + last.name + "]\n"] + WritePairs(last.pairs)
  }

  function Join(ls: seq<string>): string {
    if ls == [] then "" else ls[0] + Join(ls[1..])
  }

  /** The normal form: one header line a section, one assignment line a pair. */
  function Render(t: Table): string {
    Join(WriteLines(t))
  }

  function SaidPairs(pairs: seq<Pair>): seq<Line> {
    if pairs == [] then []
    else SaidPairs(pairs[..|pairs| - 1]) + [Assignment(pairs[|pairs| - 1].key, pairs[|pairs| - 1].value)]
  }

  function SaidLines(t: Table): seq<Line> {
    if t == [] then []
    else SaidLines(t[..|t| - 1]) + [Header(t[|t| - 1].name)] + SaidPairs(t[|t| - 1].pairs)
  }

  // ---- each written line is one chunk and means what it should ----

  ghost predicate WholeLine(s: string) {
    0 < |s| < LINE_MAX && s[|s| - 1] == '\n' && OneLine(s)
  }

  /** A written line is read back in one piece, as this line. */
  ghost predicate Reads(s: string, l: Line) {
    WholeLine(s) && Classify(Visible(s)) == l
  }

  lemma FirstChunk(s: string, rest: string)
    requires WholeLine(s)
    ensures ChunkLength(s + rest) == |s|
  {
    var text := s + rest;
    forall k | 0 <= k < |s| - 1
      ensures text[k] != '\n'
    {
      assert text[k] == s[k];
    }
    IndexIs(text, '\n', 0, |s| - 1);
  }

  lemma {:induction false} JoinReads(ls: seq<string>, said: seq<Line>)
    requires |ls| == |said| && forall i :: 0 <= i < |ls| ==> Reads(ls[i], said[i])
    ensures Lines(Join(ls)) == said
  {
    if ls != [] {
      var s, rest := ls[0], Join(ls[1..]);
      assert Reads(ls[0], said[0]);
      FirstChunk(s, rest);
      assert (s + rest)[..|s|] == s && (s + rest)[|s|..] == rest;
      forall i | 0 <= i < |ls| - 1
        ensures Reads(ls[1..][i], said[1..][i])
      {
        assert Reads(ls[i + 1], said[i + 1]);
      }
      JoinReads(ls[1..], said[1..]);
    }
  }

  /** Nothing to strip, and the newline is trimmed off. */
  lemma NewlineTrimmed(body: string)
    requires Plain(body) && body != [] && Trimmed(body) && Without(body, NUL)
    ensures Trim(StripComment(Visible(body + "\n"))) == body
  {
    var s := body + "\n";
    forall k | 0 <= k < |s|
      ensures s[k] != NUL && !StartsComment(s[k])
    {
      assert k < |body| ==> s[k] == body[k];
    }
    assert Visible(s) == s;
    assert StripComment(s) == s;
    assert s[0..|body|] == body;
    TrimIs(s, 0, |body|);
  }

  lemma TrimmedStays(s: string)
    requires Trimmed(s)
    ensures Trim(s) == s
  {
    assert s[0..|s|] == s;
    TrimIs(s, 0, |s|);
  }

  lemma HeaderReads(name: string)
    requires GoodName(name) && |name| < MAX_LEN
    ensures Reads("[" + name + "]\n", Header(name))
  {
    var body := "[" + name + "]";
    var s := "[" + name + "]\n";
    assert s == body + "\n";
    forall k | 0 <= k < |body|
      ensures body[k] != NUL && body[k] != '\n' && !StartsComment(body[k])
      ensures k < |body| - 1 ==> body[k] != ']'
    {
      assert 0 < k < |body| - 1 ==> body[k] == name[k - 1];
    }
    NewlineTrimmed(body);
    IndexIs(body, ']', 0, |body| - 1);
    assert body[1..|body| - 1] == name;
    TrimmedStays(name);
  }

  lemma PaddedKey(key: string)
    requires GoodKey(key)
    ensures Trim(key + " ") == key
  {
    var s := key + " ";
    assert s[0..|key|] == key;
    TrimIs(s, 0, |key|);
  }

  lemma PaddedValue(value: string)
    requires GoodValue(value)
    ensures Trim(" " + value) == value
  {
    var s := " " + value;
    assert s[1..|s|] == value;
    TrimIs(s, 1, |s|);
  }

  /** The body of an assignment line, with the trailing blank an empty value leaves trimmed off. */
  function PairBody(p: Pair): string {
    if p.value == [] then p.key + " =" else p.key + " = " + p.value
  }

  lemma PairTrims(p: Pair)
    requires GoodPair(p)
    ensures Trim(StripComment(Visible(p.key + " = " + p.value + "\n"))) == PairBody(p)
  {
    var s, body := p.key + " = " + p.value + "\n", PairBody(p);
    forall k | 0 <= k < |s|
      ensures s[k] != NUL && !StartsComment(s[k])
    {
      assert k < |p.key| ==> s[k] == p.key[k];
      assert |p.key| + 3 <= k < |s| - 1 ==> s[k] == p.value[k - |p.key| - 3];
    }
    assert Visible(s) == s;
    assert StripComment(s) == s;
    assert s[0..|body|] == body;
    assert body[0] == p.key[0];
    assert p.value != [] ==> body[|body| - 1] == p.value[|p.value| - 1];
    TrimIs(s, 0, |body|);
  }

  lemma PairClassified(p: Pair)
    requires GoodPair(p)
    ensures ClassifyAssignment(PairBody(p)) == Assignment(p.key, p.value)
  {
    var body, eq := PairBody(p), |p.key| + 1;
    forall k | 0 <= k < eq
      ensures body[k] != '='
    {
      assert k < |p.key| ==> body[k] == p.key[k];
    }
    IndexIs(body, '=', 0, eq);
    assert body[..eq] == p.key + " ";
    assert body[eq + 1..] == if p.value == [] then "" else " " + p.value;
    PaddedKey(p.key);
    PaddedValue(p.value);
  }

  lemma PairWhole(p: Pair)
    requires GoodPair(p)
    ensures WholeLine(p.key + " = " + p.value + "\n")
  {
    var s := p.key + " = " + p.value + "\n";
    forall k | 0 <= k < |s| - 1
      ensures s[k] != '\n'
    {
      assert k < |p.key| ==> s[k] == p.key[k];
      assert |p.key| + 3 <= k ==> s[k] == p.value[k - |p.key| - 3];
    }
  }

  lemma BodyStarts(p: Pair)
    requires GoodPair(p)
    ensures PairBody(p) != [] && PairBody(p)[0] != '['
  {
    assert PairBody(p)[0] == p.key[0];
  }

  lemma PairReads(p: Pair)
    requires GoodPair(p)
    ensures Reads(p.key + " = " + p.value + "\n", Assignment(p.key, p.value))
  {
    PairWhole(p);
    PairTrims(p);
    PairClassified(p);
    BodyStarts(p);
    ClassifiedAs(Visible(p.key + " = " + p.value + "\n"), PairBody(p));
  }

  lemma ClassifiedAs(visible: string, body: string)
    requires Trim(StripComment(visible)) == body && body != [] && body[0] != '['
    ensures Classify(visible) == ClassifyAssignment(body)
  {
  }

  ghost predicate AllRead(ls: seq<string>, said: seq<Line>) {
    |ls| == |said| && forall i :: 0 <= i < |ls| ==> Reads(ls[i], said[i])
  }

  lemma AllReadAppend(a: seq<string>, x: seq<Line>, b: seq<string>, y: seq<Line>)
    requires AllRead(a, x) && AllRead(b, y)
    ensures AllRead(a + b, x + y)
  {
    forall i | 0 <= i < |a + b|
      ensures Reads((a + b)[i], (x + y)[i])
    {
      if i < |a| {
        assert Reads(a[i], x[i]);
      } else {
        assert Reads(b[i - |a|], y[i - |a|]);
      }
    }
  }

  lemma {:induction false} PairsRead(pairs: seq<Pair>)
    requires forall i :: 0 <= i < |pairs| ==> GoodPair(pairs[i])
    ensures AllRead(WritePairs(pairs), SaidPairs(pairs))
  {
    if pairs != [] {
      var front, last := pairs[..|pairs| - 1], pairs[|pairs| - 1];
      PairsRead(front);
      PairReads(last);
      AllReadAppend(WritePairs(front), SaidPairs(front),
                    [last.key + " = " + last.value + "\n"], [Assignment(last.key, last.value)]);
    }
  }

  lemma {:induction false} SectionsRead(t: Table)
    requires forall i :: 0 <= i < |t| ==> GoodSection(t[i])
    ensures AllRead(WriteLines(t), SaidLines(t))
  {
    if t != [] {
      var front, last := t[..|t| - 1], t[|t| - 1];
      SectionsRead(front);
      HeaderReads(last.name);
      AllReadAppend(WriteLines(front), SaidLines(front), ["[" + last.name + "]\n"], [Header(last.name)]);
      PairsRead(last.pairs);
      AllReadAppend(WriteLines(front) + ["[" + last.name + "]\n"], SaidLines(front) + [Header(last.name)],
                    WritePairs(last.pairs), SaidPairs(last.pairs));
    }
  }

  // ---- building what was said ----

  lemma {:induction false} PairsBuild(lines: seq<Line>, t: Table, name: string, pairs: seq<Pair>)
    requires Build(lines) == Success(t + [Section(name, [])]) && GoodPairs(pairs)
    ensures Build(lines + SaidPairs(pairs)) == Success(t + [Section(name, pairs)])
    decreases |pairs|
  {
    if pairs == [] {
      assert lines + SaidPairs(pairs) == lines;
    } else {
      var front, last := pairs[..|pairs| - 1], pairs[|pairs| - 1];
      PairsBuild(lines, t, name, front);
      BuildSnoc(lines + SaidPairs(front), Assignment(last.key, last.value));
      assert lines + SaidPairs(pairs) == lines + SaidPairs(front) + [Assignment(last.key, last.value)];
      LastPairAssigned(t, name, pairs);
    }
  }

  lemma LastPairAssigned(t: Table, name: string, pairs: seq<Pair>)
    requires GoodPairs(pairs) && pairs != []
    ensures var front, last := pairs[..|pairs| - 1], pairs[|pairs| - 1];
            Assign(t + [Section(name, front)], last.key, last.value) == Success(t + [Section(name, pairs)])
  {
    var front, last := pairs[..|pairs| - 1], pairs[|pairs| - 1];
    assert GoodPair(last);
    assert KeyIndex(front, last.key, 0) == |front|;
    assert front + [last] == pairs;
    assert (t + [Section(name, front)])[|t| := Section(name, pairs)] == t + [Section(name, pairs)];
  }

  lemma SectionBuilds(lines: seq<Line>, t: Table, s: Section)
    requires Build(lines) == Success(t) && GoodSection(s)
    requires |t| < MAX_SECTIONS && SectionIndex(t, s.name, 0) == |t|
    ensures Build(lines + [Header(s.name)] + SaidPairs(s.pairs)) == Success(t + [s])
  {
    BuildSnoc(lines, Header(s.name));
    PairsBuild(lines + [Header(s.name)], t, s.name, s.pairs);
  }

  lemma {:induction false} SaidBuilds(t: Table)
    requires WellFormed(t)
    ensures Build(SaidLines(t)) == Success(t)
  {
    if t != [] {
      var front, last := t[..|t| - 1], t[|t| - 1];
      SaidBuilds(front);
      assert GoodSection(last);
      assert front + [last] == t;
      NewName(front, last);
      SectionBuilds(SaidLines(front), front, last);
    }
  }

  lemma NewName(front: Table, last: Section)
    requires WellFormed(front + [last])
    ensures SectionIndex(front, last.name, 0) == |front|
  {
    var t := front + [last];
    forall i | 0 <= i < |front|
      ensures front[i].name != last.name
    {
      assert t[i].name != t[|front|].name;
    }
  }

  // ---- round trips ----

  /** Every well-formed table survives being written out and read back. */
  lemma RenderParses(t: Table)
    requires WellFormed(t)
    ensures Load(Render(t)) == Success(t)
  {
    SectionsRead(t);
    JoinReads(WriteLines(t), SaidLines(t));
    SaidBuilds(t);
  }

  /** So parsing, writing out and parsing again is parsing. */
  lemma ParseRenderParse(text: string)
    requires Load(text).Success?
    ensures Load(Render(Load(text).value)) == Load(text)
  {
    LoadedIsWellFormed(text);
    RenderParses(Load(text).value);
  }
}
