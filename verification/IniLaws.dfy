/** What ini.c promises of its tables: when a file is accepted, what a lookup means, and round trips. */
module IniLaws {
  import opened Machine
  import opened IniModel

  // ---- what is said under which section ----

  function HeadersIn(lines: seq<Line>): seq<string> {
    if lines == [] then []
    else
      var before, last := HeadersIn(lines[..|lines| - 1]), lines[|lines| - 1];
      if last.Header? then before + [last.name] else before
  }

  /** The section in force after these lines. */
  predicate Under(lines: seq<Line>, section: string) {
    var headers := HeadersIn(lines);
    headers != [] && headers[|headers| - 1] == section
  }

  function PairsUnder(lines: seq<Line>, section: string): seq<Pair> {
    if lines == [] then []
    else
      var front, last := lines[..|lines| - 1], lines[|lines| - 1];
      if last.Assignment? && Under(front, section) then PairsUnder(front, section) + [Pair(last.key, last.value)]
      else PairsUnder(front, section)
  }

  predicate Listed(names: seq<string>, name: string) {
    exists k :: 0 <= k < |names| && names[k] == name
  }

  predicate HasKey(pairs: seq<Pair>, key: string) {
    exists k :: 0 <= k < |pairs| && pairs[k].key == key
  }

  ghost predicate DistinctNames(t: Table) {
    forall i, j :: 0 <= i < j < |t| ==> t[i].name != t[j].name
  }

  /** The sections are the headers in order, each with what was said under it. */
  ghost predicate Represents(t: Table, lines: seq<Line>) {
    && |t| == |HeadersIn(lines)|
    && (forall k :: 0 <= k < |t| ==> t[k].name == HeadersIn(lines)[k])
    && forall k :: 0 <= k < |t| ==> t[k].pairs == PairsUnder(lines, t[k].name)
  }

  lemma HeadersSnoc(lines: seq<Line>, l: Line)
    ensures HeadersIn(lines + [l]) == HeadersIn(lines) + (if l.Header? then [l.name] else [])
  {
    assert (lines + [l])[..|lines|] == lines;
  }

  lemma PairsSnoc(lines: seq<Line>, l: Line, section: string)
    ensures PairsUnder(lines + [l], section) ==
            PairsUnder(lines, section)
            + (if l.Assignment? && Under(lines, section) then [Pair(l.key, l.value)] else [])
  {
    assert (lines + [l])[..|lines|] == lines;
  }

  lemma {:induction false} NothingUnderUnlisted(lines: seq<Line>, section: string)
    requires !Listed(HeadersIn(lines), section)
    ensures PairsUnder(lines, section) == []
  {
    if lines != [] {
      var front := lines[..|lines| - 1];
      assert lines == front + [lines[|lines| - 1]];
      HeadersSnoc(front, lines[|lines| - 1]);
      forall k | 0 <= k < |HeadersIn(front)|
        ensures HeadersIn(front)[k] != section
      {
        assert HeadersIn(lines)[k] == HeadersIn(front)[k];
      }
      NothingUnderUnlisted(front, section);
    }
  }

  // ---- accepted files, line by line ----

  /** What a line must satisfy, given the lines before it. */
  ghost predicate LineAccepted(before: seq<Line>, l: Line) {
    match l
    case Blank => true
    case Broken(_) => false
    case Header(name) =>
      |name| <= 127 && !Listed(HeadersIn(before), name) && |HeadersIn(before)| < 24
    case Assignment(key, value) =>
      && |key| <= 127 && |value| <= 127
      && HeadersIn(before) != []
      && var said := PairsUnder(before, HeadersIn(before)[|HeadersIn(before)| - 1]);
         !HasKey(said, key) && |said| < 16
  }

  /** Which fault a line has, given the lines before it: the first in this order. */
  ghost predicate HasFault(before: seq<Line>, l: Line, fault: Fault) {
    match l
    case Blank => false
    case Broken(why) => fault == why
    case Header(name) =>
      if |name| > 127 then fault == SectionTooLong
      else if Listed(HeadersIn(before), name) then fault == DuplicateSection
      else |HeadersIn(before)| >= 24 && fault == TooManySections
    case Assignment(key, value) =>
      if HeadersIn(before) == [] then fault == KeyOutsideSection
      else if |key| > 127 || |value| > 127 then fault == TooLong
      else
        var said := PairsUnder(before, HeadersIn(before)[|HeadersIn(before)| - 1]);
        if HasKey(said, key) then fault == DuplicateKey else |said| >= 16 && fault == TooManyKeys
  }

  lemma OpenIff(t: Table, lines: seq<Line>, name: string)
    requires Represents(t, lines)
    ensures Open(t, name).Success? <==> LineAccepted(lines, Header(name))
    ensures Open(t, name).Failure? ==> HasFault(lines, Header(name), Open(t, name).error)
  {
    var i := SectionIndex(t, name, 0);
    if i < |t| {
      assert HeadersIn(lines)[i] == name;
    }
  }

  lemma AssignIff(t: Table, lines: seq<Line>, key: string, value: string)
    requires Represents(t, lines)
    ensures Assign(t, key, value).Success? <==> LineAccepted(lines, Assignment(key, value))
    ensures Assign(t, key, value).Failure? ==> HasFault(lines, Assignment(key, value), Assign(t, key, value).error)
  {
    if t != [] {
      var pairs := t[|t| - 1].pairs;
      var j := KeyIndex(pairs, key, 0);
      assert j < |pairs| ==> pairs[j].key == key;
    }
  }

  lemma ApplyIff(t: Table, lines: seq<Line>, l: Line)
    requires Represents(t, lines)
    ensures Apply(t, l).Success? <==> LineAccepted(lines, l)
    ensures Apply(t, l).Failure? ==> HasFault(lines, l, Apply(t, l).error)
  {
    match l
    case Header(name) => OpenIff(t, lines, name);
    case Assignment(key, value) => AssignIff(t, lines, key, value);
    case _ =>
  }

  lemma OpenRepresents(t: Table, lines: seq<Line>, name: string)
    requires Represents(t, lines) && DistinctNames(t) && Open(t, name).Success?
    ensures Represents(Open(t, name).value, lines + [Header(name)]) && DistinctNames(Open(t, name).value)
  {
    var l, u := Header(name), Open(t, name).value;
    OpenIff(t, lines, name);
    NothingUnderUnlisted(lines, name);
    HeadersSnoc(lines, l);
    forall k | 0 <= k < |u|
      ensures u[k].pairs == PairsUnder(lines + [l], u[k].name)
    {
      PairsSnoc(lines, l, u[k].name);
    }
  }

  lemma AssignRepresents(t: Table, lines: seq<Line>, key: string, value: string)
    requires Represents(t, lines) && DistinctNames(t) && Assign(t, key, value).Success?
    ensures Represents(Assign(t, key, value).value, lines + [Assignment(key, value)])
    ensures DistinctNames(Assign(t, key, value).value)
  {
    var l, u := Assignment(key, value), Assign(t, key, value).value;
    HeadersSnoc(lines, l);
    forall k | 0 <= k < |u|
      ensures u[k].pairs == PairsUnder(lines + [l], u[k].name)
    {
      PairsSnoc(lines, l, u[k].name);
      assert k < |t| - 1 ==> t[k].name != t[|t| - 1].name;
    }
  }

  lemma BlankRepresents(t: Table, lines: seq<Line>)
    requires Represents(t, lines)
    ensures Represents(t, lines + [Blank])
  {
    HeadersSnoc(lines, Blank);
    forall k | 0 <= k < |t|
      ensures t[k].pairs == PairsUnder(lines + [Blank], t[k].name)
    {
      PairsSnoc(lines, Blank, t[k].name);
    }
  }

  lemma ApplyRepresents(t: Table, lines: seq<Line>, l: Line)
    requires Represents(t, lines) && DistinctNames(t) && Apply(t, l).Success?
    ensures Represents(Apply(t, l).value, lines + [l]) && DistinctNames(Apply(t, l).value)
  {
    match l
    case Blank => BlankRepresents(t, lines);
    case Header(name) => OpenRepresents(t, lines, name);
    case Assignment(key, value) => AssignRepresents(t, lines, key, value);
  }

  lemma {:induction false} BuildRepresents(lines: seq<Line>)
    requires Build(lines).Success?
    ensures Represents(Build(lines).value, lines) && DistinctNames(Build(lines).value)
  {
    if lines != [] {
      var front, last := lines[..|lines| - 1], lines[|lines| - 1];
      BuildRepresents(front);
      assert lines == front + [last];
      ApplyRepresents(Build(front).value, front, last);
    }
  }

  ghost predicate AllAccepted(lines: seq<Line>) {
    forall i :: 0 <= i < |lines| ==> LineAccepted(lines[..i], lines[i])
  }

  lemma AllAcceptedFront(lines: seq<Line>)
    requires lines != []
    ensures AllAccepted(lines) <==>
            AllAccepted(lines[..|lines| - 1]) && LineAccepted(lines[..|lines| - 1], lines[|lines| - 1])
  {
    var front := lines[..|lines| - 1];
    assert forall i :: 0 <= i < |front| ==> front[..i] == lines[..i];
    assert forall i :: 0 <= i < |lines| - 1 ==> lines[i] == front[i];
  }

  /** A file loads exactly when every line is acceptable after the ones before it. */
  lemma {:induction false} AcceptedIff(lines: seq<Line>)
    ensures Build(lines).Success? <==> AllAccepted(lines)
  {
    if lines != [] {
      var front, last := lines[..|lines| - 1], lines[|lines| - 1];
      AcceptedIff(front);
      AllAcceptedFront(lines);
      if Build(front).Success? {
        BuildRepresents(front);
        ApplyIff(Build(front).value, front, last);
      }
    }
  }

  /** And a failure names the first line that is not, and the first fault it has. */
  lemma {:induction false} FirstFault(lines: seq<Line>)
    requires Build(lines).Failure?
    ensures var n := Build(lines).error.line;
            && 0 < n <= |lines|
            && AllAccepted(lines[..n - 1]) && !LineAccepted(lines[..n - 1], lines[n - 1])
            && HasFault(lines[..n - 1], lines[n - 1], Build(lines).error.fault)
  {
    var front, last := lines[..|lines| - 1], lines[|lines| - 1];
    if Build(front).Failure? {
      FirstFault(front);
      var n := Build(lines).error.line;
      assert front[..n - 1] == lines[..n - 1];
    } else {
      AcceptedIff(front);
      BuildRepresents(front);
      ApplyIff(Build(front).value, front, last);
    }
  }

  // ---- lookups ----

  /** Line i assigns this value to this key under this section. */
  ghost predicate Says(lines: seq<Line>, i: nat, section: string, key: string, value: string) {
    i < |lines| && lines[i] == Assignment(key, value) && Under(lines[..i], section)
  }

  lemma {:induction false} SaidIsListed(lines: seq<Line>, i: nat, section: string, key: string, value: string)
    requires Says(lines, i, section, key, value)
    ensures exists j :: 0 <= j < |PairsUnder(lines, section)| && PairsUnder(lines, section)[j] == Pair(key, value)
    decreases |lines|
  {
    var front := lines[..|lines| - 1];
    if i < |front| {
      assert front[..i] == lines[..i];
      SaidIsListed(front, i, section, key, value);
      var j :| 0 <= j < |PairsUnder(front, section)| && PairsUnder(front, section)[j] == Pair(key, value);
      assert PairsUnder(lines, section)[j] == Pair(key, value);
    } else {
      assert PairsUnder(lines, section)[|PairsUnder(front, section)|] == Pair(key, value);
    }
  }

  lemma {:induction false} ListedIsSaid(lines: seq<Line>, section: string, j: nat)
    requires j < |PairsUnder(lines, section)|
    ensures var pair := PairsUnder(lines, section)[j]; exists i: nat :: Says(lines, i, section, pair.key, pair.value)
    decreases |lines|
  {
    var front := lines[..|lines| - 1];
    var pair := PairsUnder(lines, section)[j];
    if j < |PairsUnder(front, section)| {
      ListedIsSaid(front, section, j);
      var i: nat :| Says(front, i, section, pair.key, pair.value);
      assert lines[..i] == front[..i];
      assert Says(lines, i, section, pair.key, pair.value);
    } else {
      assert Says(lines, |front|, section, pair.key, pair.value);
    }
  }

  lemma {:induction false} HeadersKept(lines: seq<Line>, n: nat)
    requires n <= |lines|
    ensures HeadersIn(lines[..n]) <= HeadersIn(lines)
    decreases |lines|
  {
    if n < |lines| {
      var front := lines[..|lines| - 1];
      HeadersKept(front, n);
      assert front[..n] == lines[..n];
    } else {
      assert lines[..n] == lines;
    }
  }

  /** In an accepted file no key is assigned twice under one section. */
  lemma SaidOnce(lines: seq<Line>, i: nat, j: nat, section: string, key: string, v: string, w: string)
    requires AllAccepted(lines) && Says(lines, i, section, key, v) && Says(lines, j, section, key, w)
    ensures i == j && v == w
  {
    NotSaidAgain(lines, i, j, section, key, v, w);
    NotSaidAgain(lines, j, i, section, key, w, v);
  }

  lemma NotSaidAgain(lines: seq<Line>, i: nat, j: nat, section: string, key: string, v: string, w: string)
    requires AllAccepted(lines) && Says(lines, i, section, key, v)
    ensures i < j ==> !Says(lines, j, section, key, w)
  {
    if i < j < |lines| {
      var before := lines[..j];
      assert before[..i] == lines[..i];
      SaidIsListed(before, i, section, key, v);
      assert LineAccepted(before, lines[j]);
      assert HasKey(PairsUnder(before, section), key);
    }
  }

  /** Exactly one line says this: some line assigns the value, and no other line assigns the key. */
  ghost predicate SaidExactlyOnce(lines: seq<Line>, section: string, key: string, value: string) {
    exists i: nat ::
      && Says(lines, i, section, key, value)
      && forall j: nat, w :: Says(lines, j, section, key, w) ==> j == i
  }

  lemma FoundIsSaid(lines: seq<Line>, t: Table, section: string, key: string, value: string)
    requires Represents(t, lines) && Get(t, section, key) == Some(value)
    ensures exists i: nat :: Says(lines, i, section, key, value)
  {
    var k := SectionIndex(t, section, 0);
    ListedIsSaid(lines, section, KeyIndex(t[k].pairs, key, 0));
  }

  lemma SaidIsFound(lines: seq<Line>, t: Table, i: nat, section: string, key: string, value: string)
    requires Represents(t, lines) && Says(lines, i, section, key, value)
    ensures Get(t, section, key).Some?
  {
    HeadersKept(lines, i);
    var k := SectionIndex(t, section, 0);
    var at := |HeadersIn(lines[..i])| - 1;
    assert HeadersIn(lines)[at] == section && t[at].name == section;
    SaidIsListed(lines, i, section, key, value);
    var j :| 0 <= j < |PairsUnder(lines, section)| && PairsUnder(lines, section)[j] == Pair(key, value);
    assert t[k].pairs[j].key == key;
  }

  /** A lookup agrees with the text: a value exactly when one line under that header assigns it. */
  lemma LookupIsText(text: string, section: string, key: string, value: string)
    requires Load(text).Success?
    ensures Get(Load(text).value, section, key) == Some(value) <==> SaidExactlyOnce(Lines(text), section, key, value)
  {
    var lines, t := Lines(text), Load(text).value;
    BuildRepresents(lines);
    AcceptedIff(lines);
    if Get(t, section, key) == Some(value) {
      FoundIsSaid(lines, t, section, key, value);
      var i: nat :| Says(lines, i, section, key, value);
      forall j: nat, w | Says(lines, j, section, key, w)
        ensures j == i
      {
        SaidOnce(lines, i, j, section, key, value, w);
      }
    }
    if SaidExactlyOnce(lines, section, key, value) {
      var i: nat :|
        Says(lines, i, section, key, value) && forall j: nat, w :: Says(lines, j, section, key, w) ==> j == i;
      SaidIsFound(lines, t, i, section, key, value);
      var found := Get(t, section, key).value;
      FoundIsSaid(lines, t, section, key, found);
      var j: nat :| Says(lines, j, section, key, found);
    }
  }

  // ---- lookups and key checks on any table ----

  ghost predicate FirstNamed(t: Table, section: string, i: int) {
    0 <= i < |t| && t[i].name == section && forall k :: 0 <= k < i ==> t[k].name != section
  }

  ghost predicate FirstKeyed(pairs: seq<Pair>, key: string, j: int) {
    0 <= j < |pairs| && pairs[j].key == key && forall k :: 0 <= k < j ==> pairs[k].key != key
  }

  /** A lookup yields the first such key's value in the first such section, if there is one. */
  lemma LookupIs(t: Table, section: string, key: string, value: string)
    ensures Get(t, section, key) == Some(value) <==>
            exists i, j :: FirstNamed(t, section, i) && FirstKeyed(t[i].pairs, key, j) && t[i].pairs[j].value == value
  {
    var i := SectionIndex(t, section, 0);
    if i < |t| {
      assert FirstNamed(t, section, i);
      var j := KeyIndex(t[i].pairs, key, 0);
      if j < |t[i].pairs| {
        assert FirstKeyed(t[i].pairs, key, j);
      }
    }
  }

  /** The first key of these pairs that is not allowed. */
  ghost predicate FirstUnknown(pairs: seq<Pair>, allowed: seq<string>, j: int) {
    0 <= j < |pairs| && pairs[j].key !in allowed && forall k :: 0 <= k < j ==> pairs[k].key in allowed
  }

  /** What a key check says: no such section, or its first key that is not allowed, or neither. */
  lemma CheckIs(t: Table, section: string, allowed: seq<string>)
    ensures CheckKeys(t, section, allowed) == NoSection <==> forall k :: 0 <= k < |t| ==> t[k].name != section
    ensures forall key :: CheckKeys(t, section, allowed) == UnknownKey(key) <==>
              exists i, j :: FirstNamed(t, section, i) && FirstUnknown(t[i].pairs, allowed, j)
                             && t[i].pairs[j].key == key
    ensures CheckKeys(t, section, allowed) == AllKnown <==>
            exists i :: FirstNamed(t, section, i) && forall k :: 0 <= k < |t[i].pairs| ==> t[i].pairs[k].key in allowed
  {
    var i := SectionIndex(t, section, 0);
    if i < |t| {
      assert FirstNamed(t, section, i);
      var j := UnknownAt(t[i].pairs, allowed, 0);
      if j < |t[i].pairs| {
        assert FirstUnknown(t[i].pairs, allowed, j);
      }
    }
  }
}
