/** The reader of ini.c over a line buffer and a table of fixed capacity. */
module Ini {
  import opened Machine
  import opened IniText
  import opened IniModel

  /** fgets: fills the buffer and terminates it; 0 means end of file. */
  method Fgets(text: string, pos: nat, line: array<char>) returns (n: nat)
    requires pos <= |text| && line.Length == LINE_MAX
    modifies line
    ensures n == ChunkLength(text[pos..])
    ensures Terminated(line[..], 0) && CString(line[..], 0) == Visible(text[pos..][..n])
  {
    ghost var rest := text[pos..];
    n := 0;
    while n < LINE_MAX - 1 && pos + n < |text| && (n == 0 || line[n - 1] != '\n')
      invariant n <= LINE_MAX - 1 && pos + n <= |text|
      invariant forall k :: 0 <= k < n - 1 ==> rest[k] != '\n'
      invariant line[..n] == rest[..n]
    {
      line[n] := text[pos + n];
      assert rest[n] == text[pos + n];
      n := n + 1;
    }
    ChunkEnds(rest, n);
    line[n] := NUL;
    BufferHolds(line[..], rest[..n]);
  }

  /** Where the loop of fgets stops is where the chunk ends. */
  lemma ChunkEnds(rest: string, n: nat)
    requires n <= LINE_MAX - 1 && n <= |rest|
    requires forall k :: 0 <= k < n - 1 ==> rest[k] != '\n'
    requires n == LINE_MAX - 1 || n == |rest| || (n > 0 && rest[n - 1] == '\n')
    ensures n == ChunkLength(rest)
  {
  }

  lemma BufferHolds(a: seq<char>, chunk: string)
    requires |chunk| < |a| && a[..|chunk|] == chunk && a[|chunk|] == NUL
    ensures Terminated(a, 0) && CString(a, 0) == Visible(chunk)
  {
    var n := IndexOf(chunk, NUL, 0);
    forall k | 0 <= k < n
      ensures a[k] != NUL
    {
      assert a[k] == chunk[k];
    }
    assert n < |chunk| ==> a[n] == chunk[n];
    IndexIs(a, NUL, 0, n);
    assert a[..n] == chunk[..n];
  }

  /** A section line whose text starts at `s`. */
  method ReadHeader(line: array<char>, s: nat) returns (l: Line)
    requires Terminated(line[..], s) && CString(line[..], s) != [] && CString(line[..], s)[0] == '['
    modifies line
    ensures l == ClassifyHeader(old(CString(line[..], s)))
  {
    ghost var before := line[..];
    var close, found := FindAt(line, s, ']');
    if !found {
      return Broken(MissingBracket);
    }
    line[close] := NUL;
    CutAt(before, line[..], s, s + 1, close);
    var name := TrimAt(line, s + 1);
    if line[name] == NUL {
      return Broken(EmptySection);
    }
    l := Header(CString(line[..], name));
  }

  /** Trims two strings that lie side by side, the second one behind the first one's end. */
  method TrimBoth(line: array<char>, s: nat, eq: nat) returns (key: nat, value: nat)
    requires Terminated(line[..], s) && IndexOf(line[..], NUL, s) == eq && Terminated(line[..], eq + 1)
    modifies line
    ensures Terminated(line[..], key) && CString(line[..], key) == Trim(old(CString(line[..], s)))
    ensures Terminated(line[..], value) && CString(line[..], value) == Trim(old(CString(line[..], eq + 1)))
  {
    ghost var before := line[..];
    key := TrimAt(line, s);
    ghost var keyed := line[..];
    TailKept(before, keyed, eq + 1, eq + 1);
    value := TrimAt(line, eq + 1);
    SideBySide(before, s, keyed, key, Trim(CString(before, s)), line[..], value, Trim(CString(keyed, eq + 1)));
  }

  /** Cuts a line at its '=', trims both sides in place and copies them out. */
  method SplitAt(line: array<char>, s: nat, eq: nat) returns (key: string, value: string)
    requires Terminated(line[..], s) && s <= eq < IndexOf(line[..], NUL, s)
    modifies line
    ensures key == Trim(old(CString(line[..], s)[..eq - s]))
    ensures value == Trim(old(CString(line[..], s)[eq + 1 - s..]))
  {
    ghost var before := line[..];
    line[eq] := NUL;
    CutAt(before, line[..], s, s, eq);
    TailKept(before, line[..], s, eq + 1);
    var keyAt, valueAt := TrimBoth(line, s, eq);
    key, value := CString(line[..], keyAt), CString(line[..], valueAt);
  }

  /** Any other line. */
  method ReadAssignment(line: array<char>, s: nat) returns (l: Line)
    requires Terminated(line[..], s)
    modifies line
    ensures l == ClassifyAssignment(old(CString(line[..], s)))
  {
    var eq, found := FindAt(line, s, '=');
    if !found {
      return Broken(NotAnAssignment);
    }
    var key, value := SplitAt(line, s, eq);
    l := if key == [] then Broken(EmptyKey) else Assignment(key, value);
  }

  /** One line of the file, taken apart in its buffer. */
  method ReadLine(line: array<char>) returns (l: Line)
    requires Terminated(line[..], 0)
    modifies line
    ensures l == Classify(old(CString(line[..], 0)))
  {
    StripCommentAt(line, 0);
    var s := TrimAt(line, 0);
    if line[s] == NUL {
      return Blank;
    }
    if line[s] == '[' {
      l := ReadHeader(line, s);
    } else {
      l := ReadAssignment(line, s);
    }
  }

  class Ini {
    const sections: array<Section>
    var count: nat

    ghost predicate Valid()
      reads this
    {
      sections.Length == MAX_SECTIONS && count <= MAX_SECTIONS
    }

    ghost function Contents(): Table
      requires Valid()
      reads this, sections
    {
      sections[..count]
    }

    constructor Empty()
      ensures Valid() && Contents() == [] && fresh(sections)
    {
      sections := new Section[MAX_SECTIONS](_ => Section([], []));
      count := 0;
    }

    /** find_section. */
    method FindSection(name: string) returns (i: nat)
      requires Valid()
      ensures i == SectionIndex(Contents(), name, 0)
    {
      i := 0;
      while i < count && sections[i].name != name
        invariant i <= count
        invariant SectionIndex(Contents(), name, i) == SectionIndex(Contents(), name, 0)
      {
        i := i + 1;
      }
    }

    method FindKey(i: nat, key: string) returns (j: nat)
      requires Valid() && i < count
      ensures j == KeyIndex(sections[i].pairs, key, 0)
    {
      j := 0;
      while j < |sections[i].pairs| && sections[i].pairs[j].key != key
        invariant j <= |sections[i].pairs|
        invariant KeyIndex(sections[i].pairs, key, j) == KeyIndex(sections[i].pairs, key, 0)
      {
        j := j + 1;
      }
    }

    /** ini_get. */
    method Lookup(section: string, key: string) returns (value: Option<string>)
      requires Valid()
      ensures value == Get(Contents(), section, key)
    {
      var i := FindSection(section);
      if i == count {
        return None;
      }
      var j := FindKey(i, key);
      value := if j == |sections[i].pairs| then None else Some(sections[i].pairs[j].value);
    }

    /** ini_check_keys: a typo in a key is an error, and the first one is named. */
    method Check(section: string, allowed: seq<string>) returns (r: KeyCheck)
      requires Valid()
      ensures r == CheckKeys(Contents(), section, allowed)
    {
      var i := FindSection(section);
      if i == count {
        return NoSection;
      }
      ghost var pairs := sections[i].pairs;
      for j := 0 to |sections[i].pairs|
        invariant UnknownAt(pairs, allowed, j) == UnknownAt(pairs, allowed, 0)
      {
        if sections[i].pairs[j].key !in allowed {
          return UnknownKey(sections[i].pairs[j].key);
        }
      }
      r := AllKnown;
    }

    method OpenSection(name: string) returns (fault: Option<Fault>)
      requires Valid()
      modifies this`count, sections
      ensures Valid()
      ensures match Open(old(Contents()), name)
              case Failure(f) => fault == Some(f)
              case Success(t) => fault == None && Contents() == t
    {
      if |name| >= MAX_LEN {
        return Some(SectionTooLong);
      }
      var i := FindSection(name);
      if i < count {
        return Some(DuplicateSection);
      }
      if count >= MAX_SECTIONS {
        return Some(TooManySections);
      }
      sections[count] := Section(name, []);
      count := count + 1;
      fault := None;
    }

    /** A pair goes to the section opened last, the only one the loop holds on to. */
    method AddPair(key: string, value: string) returns (fault: Option<Fault>)
      requires Valid()
      modifies sections
      ensures Valid()
      ensures match Assign(old(Contents()), key, value)
              case Failure(f) => fault == Some(f)
              case Success(t) => fault == None && Contents() == t
    {
      if count == 0 {
        return Some(KeyOutsideSection);
      }
      if |key| >= MAX_LEN || |value| >= MAX_LEN {
        return Some(TooLong);
      }
      var cur := count - 1;
      var j := FindKey(cur, key);
      if j < |sections[cur].pairs| {
        return Some(DuplicateKey);
      }
      if |sections[cur].pairs| >= MAX_KEYS {
        return Some(TooManyKeys);
      }
      sections[cur] := Section(sections[cur].name, sections[cur].pairs + [Pair(key, value)]);
      fault := None;
    }

    method Accept(l: Line) returns (fault: Option<Fault>)
      requires Valid()
      modifies this`count, sections
      ensures Valid()
      ensures match Apply(old(Contents()), l)
              case Failure(f) => fault == Some(f)
              case Success(t) => fault == None && Contents() == t
    {
      match l
      case Blank => fault := None;
      case Broken(f) => fault := Some(f);
      case Header(name) => fault := OpenSection(name);
      case Assignment(key, value) => fault := AddPair(key, value);
    }
  }

  /** The rest of a text after one more line. */
  lemma NextLine(rest: string, l: Line, done: seq<Line>)
    requires rest != [] && l == Classify(Visible(rest[..ChunkLength(rest)]))
    ensures done + Lines(rest) == (done + [l]) + Lines(rest[ChunkLength(rest)..])
  {
  }

  lemma Faulty(text: string, done: seq<Line>, l: Line, t: Table, rest: seq<Line>)
    requires Lines(text) == (done + [l]) + rest && Build(done) == Success(t) && Apply(t, l).Failure?
    ensures IniModel.Load(text) == Failure(IniError(|done| + 1, Apply(t, l).error))
  {
    BuildSnoc(done, l);
    FailureSticks(done + [l], rest);
  }

  /** ini_load past fopen: the table, or the first fault with its line number. */
  method Load(text: string) returns (r: Result<Ini, IniError>)
    ensures r.Failure? ==> IniModel.Load(text) == Failure(r.error)
    ensures r.Success? ==> fresh(r.value) && r.value.Valid() && IniModel.Load(text) == Success(r.value.Contents())
  {
    var ini := new Ini.Empty();
    var line := new char[LINE_MAX];
    var pos, lineno := 0, 0;
    ghost var done: seq<Line>, rest := [], text;
    var n := Fgets(text, pos, line);
    while n > 0
      invariant pos <= |text| && rest == text[pos..] && n == ChunkLength(rest) && lineno == |done|
      invariant fresh(ini) && fresh(ini.sections) && fresh(line) && ini.Valid()
      invariant n > 0 ==> Terminated(line[..], 0) && CString(line[..], 0) == Visible(rest[..n])
      invariant Lines(text) == done + Lines(rest)
      invariant Build(done) == Success(ini.Contents())
      decreases |text| - pos
    {
      ghost var t := ini.Contents();
      lineno := lineno + 1;
      var l := ReadLine(line);
      NextLine(rest, l, done);
      var fault := ini.Accept(l);
      if fault.Some? {
        Faulty(text, done, l, t, Lines(rest[n..]));
        return Failure(IniError(lineno, fault.value));
      }
      BuildSnoc(done, l);
      done, rest, pos := done + [l], rest[n..], pos + n;
      n := Fgets(text, pos, line);
    }
    assert Lines(rest) == [] && done + [] == done;
    r := Success(ini);
  }
}
