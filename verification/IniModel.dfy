/** What ini.c makes of a text: lines read in bounded chunks, classified, and built into a table. */
module IniModel {
  import opened Machine
  import opened IniText

  const MAX_SECTIONS := 24
  const MAX_KEYS := 16
  const MAX_LEN := 128
  const LINE_MAX := 512

  datatype Fault =
    | MissingBracket | EmptySection | SectionTooLong | DuplicateSection | TooManySections
    | NotAnAssignment | EmptyKey | KeyOutsideSection | TooLong | DuplicateKey | TooManyKeys

  datatype IniError = IniError(line: nat, fault: Fault)

  datatype Line = Blank | Header(name: string) | Assignment(key: string, value: string) | Broken(fault: Fault)

  datatype Pair = Pair(key: string, value: string)

  datatype Section = Section(name: string, pairs: seq<Pair>)

  type Table = seq<Section>

  // ---- reading ----

  /** How much one fgets takes: through the newline, but never more than fits the buffer. */
  function ChunkLength(text: string): (n: nat)
    ensures n <= |text| && n < LINE_MAX && (text != [] ==> n > 0)
  {
    var newline := IndexOf(text, '\n', 0);
    var whole := if newline < |text| then newline + 1 else newline;
    if whole < LINE_MAX then whole else LINE_MAX - 1
  }

  /** The C string the buffer then holds. */
  function Visible(chunk: string): (s: string)
    ensures NUL !in s
  {
    chunk[..IndexOf(chunk, NUL, 0)]
  }

  function ClassifyHeader(s: string): Line
    requires s != [] && s[0] == '['
  {
    var close := IndexOf(s, ']', 0);
    if close == |s| then Broken(MissingBracket)
    else
      var name := Trim(s[1..close]);
      if name == [] then Broken(EmptySection) else Header(name)
  }

  function ClassifyAssignment(s: string): Line {
    var eq := IndexOf(s, '=', 0);
    if eq == |s| then Broken(NotAnAssignment)
    else
      var key := Trim(s[..eq]);
      if key == [] then Broken(EmptyKey) else Assignment(key, Trim(s[eq + 1..]))
  }

  function Classify(visible: string): Line {
    var s := Trim(StripComment(visible));
    if s == [] then Blank
    else if s[0] == '[' then ClassifyHeader(s)
    else ClassifyAssignment(s)
  }

  function Lines(text: string): seq<Line> {
    if text == [] then []
    else
      var n := ChunkLength(text);
      [Classify(Visible(text[..n]))] + Lines(text[n..])
  }

  // ---- building ----

  function SectionIndex(t: Table, name: string, from: nat): (i: nat)
    requires from <= |t|
    ensures from <= i <= |t|
    ensures i < |t| ==> t[i].name == name
    ensures forall k :: from <= k < i ==> t[k].name != name
    decreases |t| - from
  {
    if from == |t| || t[from].name == name then from else SectionIndex(t, name, from + 1)
  }

  function KeyIndex(pairs: seq<Pair>, key: string, from: nat): (i: nat)
    requires from <= |pairs|
    ensures from <= i <= |pairs|
    ensures i < |pairs| ==> pairs[i].key == key
    ensures forall k :: from <= k < i ==> pairs[k].key != key
    decreases |pairs| - from
  {
    if from == |pairs| || pairs[from].key == key then from else KeyIndex(pairs, key, from + 1)
  }

  function Open(t: Table, name: string): Result<Table, Fault> {
    if |name| >= MAX_LEN then Failure(SectionTooLong)
    else if SectionIndex(t, name, 0) < |t| then Failure(DuplicateSection)
    else if |t| >= MAX_SECTIONS then Failure(TooManySections)
    else Success(t + [Section(name, [])])
  }

  /** Assignments go to the section opened last. */
  function Assign(t: Table, key: string, value: string): Result<Table, Fault> {
    if t == [] then Failure(KeyOutsideSection)
    else if |key| >= MAX_LEN || |value| >= MAX_LEN then Failure(TooLong)
    else
      var cur := t[|t| - 1];
      if KeyIndex(cur.pairs, key, 0) < |cur.pairs| then Failure(DuplicateKey)
      else if |cur.pairs| >= MAX_KEYS then Failure(TooManyKeys)
      else Success(t[|t| - 1 := Section(cur.name, cur.pairs + [Pair(key, value)])])
  }

  function Apply(t: Table, l: Line): Result<Table, Fault> {
    match l
    case Blank => Success(t)
    case Header(name) => Open(t, name)
    case Assignment(key, value) => Assign(t, key, value)
    case Broken(fault) => Failure(fault)
  }

  /** The table, or the first fault with its line number. */
  function Build(lines: seq<Line>): Result<Table, IniError> {
    if lines == [] then Success([])
    else
      match Build(lines[..|lines| - 1])
      case Failure(e) => Failure(e)
      case Success(t) =>
        match Apply(t, lines[|lines| - 1])
        case Failure(fault) => Failure(IniError(|lines|, fault))
        case Success(u) => Success(u)
  }

  function Load(text: string): Result<Table, IniError> {
    Build(Lines(text))
  }

  /** ini_get: the first pair of that key in the first section of that name. */
  function Get(t: Table, section: string, key: string): Option<string> {
    var i := SectionIndex(t, section, 0);
    if i == |t| then None
    else
      var j := KeyIndex(t[i].pairs, key, 0);
      if j == |t[i].pairs| then None else Some(t[i].pairs[j].value)
  }

  lemma BuildSnoc(lines: seq<Line>, l: Line)
    ensures Build(lines + [l]) ==
            match Build(lines)
            case Failure(e) => Failure(e)
            case Success(t) =>
              match Apply(t, l)
              case Failure(fault) => Failure(IniError(|lines| + 1, fault))
              case Success(u) => Success(u)
  {
    assert (lines + [l])[..|lines|] == lines;
  }

  lemma {:induction false} FailureSticks(lines: seq<Line>, more: seq<Line>)
    requires Build(lines).Failure?
    ensures Build(lines + more) == Build(lines)
    decreases |more|
  {
    if more == [] {
      assert lines + more == lines;
    } else {
      var front := more[..|more| - 1];
      FailureSticks(lines, front);
      assert lines + more == lines + front + [more[|more| - 1]];
      BuildSnoc(lines + front, more[|more| - 1]);
    }
  }

  // ---- allowed keys ----

  datatype KeyCheck = NoSection | UnknownKey(key: string) | AllKnown

  /** The first pair at or after `from` whose key is not allowed, or the length. */
  function UnknownAt(pairs: seq<Pair>, allowed: seq<string>, from: nat): (i: nat)
    requires from <= |pairs|
    ensures from <= i <= |pairs|
    ensures i < |pairs| ==> pairs[i].key !in allowed
    ensures forall k :: from <= k < i ==> pairs[k].key in allowed
    decreases |pairs| - from
  {
    if from == |pairs| || pairs[from].key !in allowed then from else UnknownAt(pairs, allowed, from + 1)
  }

  function CheckKeys(t: Table, section: string, allowed: seq<string>): KeyCheck {
    var i := SectionIndex(t, section, 0);
    if i == |t| then NoSection
    else
      var j := UnknownAt(t[i].pairs, allowed, 0);
      if j == |t[i].pairs| then AllKnown else UnknownKey(t[i].pairs[j].key)
  }
}
