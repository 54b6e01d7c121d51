/** What a line of a configuration file is, and how a text falls into lines, said of the characters. */
module IniForms {
  import opened IniText
  import opened IniModel

  // ---- spaces and comments ----

  /** A blank, or a tab, newline, vertical tab, form feed or carriage return. */
  predicate Space(c: char) {
    c as int == 32 || c as int == 9 || c as int == 10 || c as int == 11 || c as int == 12 || c as int == 13
  }

  predicate OpensComment(c: char) {
    c == '#' || c == ';'
  }

  lemma SpacesAre(c: char)
    ensures IsSpace(c) <==> Space(c)
  {
  }

  ghost predicate AllSpace(s: string) {
    forall k :: 0 <= k < |s| ==> Space(s[k])
  }

  /** What is left of s without the spaces at its ends. */
  ghost predicate Stripped(s: string, t: string) {
    && (t != "" ==> !Space(t[0]) && !Space(t[|t| - 1]))
    && exists i, j :: Strips(s, t, i, j)
  }

  ghost predicate Strips(s: string, t: string, i: int, j: int) {
    0 <= i <= j <= |s| && t == s[i..j] && AllSpace(s[..i]) && AllSpace(s[j..])
  }

  lemma StrippedIff(s: string, t: string)
    ensures Stripped(s, t) <==> t == Trim(s)
  {
    if Stripped(s, t) {
      var i, j :| Strips(s, t, i, j);
      StripsTrim(s, i, j);
    }
    var b := WordAt(s, 0);
    assert Strips(s, Trim(s), b, WordEnd(s, b, |s|));
  }

  lemma StripsTrim(s: string, i: nat, j: nat)
    requires i <= j <= |s| && AllSpace(s[..i]) && AllSpace(s[j..]) && Trimmed(s[i..j])
    ensures Trim(s) == s[i..j]
  {
    forall k | 0 <= k < i
      ensures IsSpace(s[k])
    {
      assert Space(s[..i][k]);
    }
    forall k | j <= k < |s|
      ensures IsSpace(s[k])
    {
      assert Space(s[j..][k - j]);
    }
    TrimIs(s, i, j);
  }

  /** What a line says: up to its first comment character, without the spaces at the ends. */
  ghost predicate Body(line: string, b: string) {
    exists k :: CommentFrom(line, k) && Stripped(line[..k], b)
  }

  ghost predicate CommentFrom(line: string, k: int) {
    && 0 <= k <= |line| && (k == |line| || OpensComment(line[k]))
    && forall i :: 0 <= i < k ==> !OpensComment(line[i])
  }

  lemma BodyIff(line: string, b: string)
    ensures Body(line, b) <==> b == Trim(StripComment(line))
  {
    var k := CommentAt(line, 0);
    assert CommentFrom(line, k);
    forall i | CommentFrom(line, i)
      ensures i == k
    {
    }
    StrippedIff(line[..k], b);
  }

  // ---- the forms of a line ----

  ghost predicate Lacks(s: string, c: char) {
    forall k :: 0 <= k < |s| ==> s[k] != c
  }

  /** The first c of s is at k. */
  ghost predicate FirstAt(s: string, c: char, k: int) {
    0 <= k < |s| && s[k] == c && forall i :: 0 <= i < k ==> s[i] != c
  }

  lemma FirstIs(s: string, c: char, k: int)
    ensures FirstAt(s, c, k) <==> 0 <= k < |s| && k == IndexOf(s, c, 0)
    ensures Lacks(s, c) <==> IndexOf(s, c, 0) == |s|
  {
    var i := IndexOf(s, c, 0);
    assert i < |s| ==> s[i] == c;
  }

  /** "[name]" and anything after it: what lies between the bracket and the first closing one. */
  ghost predicate HeaderOf(b: string, name: string) {
    b != "" && b[0] == '[' && exists k :: FirstAt(b, ']', k) && Stripped(b[1..k], name)
  }

  /** What lies before the first equals sign of a line that is no header. */
  ghost predicate KeyOf(b: string, key: string) {
    b != "" && b[0] != '[' && exists k :: FirstAt(b, '=', k) && Stripped(b[..k], key)
  }

  /** "key = value": what lies on either side of the first equals sign. */
  ghost predicate PairOf(b: string, key: string, value: string) {
    b != "" && b[0] != '['
    && exists k :: FirstAt(b, '=', k) && Stripped(b[..k], key) && Stripped(b[k + 1..], value)
  }

  /** The form of a line with this body. */
  ghost predicate FormOf(b: string, l: Line) {
    match l
    case Blank => b == ""
    case Header(name) => name != "" && HeaderOf(b, name)
    case Assignment(key, value) => key != "" && PairOf(b, key, value)
    case Broken(MissingBracket) => b != "" && b[0] == '[' && Lacks(b, ']')
    case Broken(EmptySection) => HeaderOf(b, "")
    case Broken(NotAnAssignment) => b != "" && b[0] != '[' && Lacks(b, '=')
    case Broken(EmptyKey) => KeyOf(b, "")
    case Broken(_) => false
  }

  lemma HeaderIff(b: string, name: string)
    requires b != "" && b[0] == '['
    ensures var k := IndexOf(b, ']', 0); HeaderOf(b, name) <==> k < |b| && name == Trim(b[1..k])
  {
    var k := IndexOf(b, ']', 0);
    if k < |b| {
      FirstIs(b, ']', k);
      StrippedIff(b[1..k], name);
    }
    forall i | FirstAt(b, ']', i)
      ensures i == k
    {
      FirstIs(b, ']', i);
    }
  }

  lemma PairIff(b: string, key: string, value: string)
    requires b != "" && b[0] != '['
    ensures var k := IndexOf(b, '=', 0);
            PairOf(b, key, value) <==> k < |b| && key == Trim(b[..k]) && value == Trim(b[k + 1..])
  {
    var k := IndexOf(b, '=', 0);
    if k < |b| {
      FirstIs(b, '=', k);
      StrippedIff(b[..k], key);
      StrippedIff(b[k + 1..], value);
    }
    forall i | FirstAt(b, '=', i)
      ensures i == k
    {
      FirstIs(b, '=', i);
    }
  }

  lemma BracketForms(b: string, l: Line)
    requires b != "" && b[0] == '['
    ensures l == ClassifyHeader(b) <==> FormOf(b, l)
  {
    FirstIs(b, ']', 0);
    HeaderIff(b, "");
    if l.Header? {
      HeaderIff(b, l.name);
    }
  }

  lemma KeyIff(b: string, key: string)
    requires b != "" && b[0] != '['
    ensures var k := IndexOf(b, '=', 0); KeyOf(b, key) <==> k < |b| && key == Trim(b[..k])
  {
    var k := IndexOf(b, '=', 0);
    if k < |b| {
      FirstIs(b, '=', k);
      StrippedIff(b[..k], key);
    }
    forall i | FirstAt(b, '=', i)
      ensures i == k
    {
      FirstIs(b, '=', i);
    }
  }

  lemma OtherForms(b: string, l: Line)
    requires b != "" && b[0] != '['
    ensures l == ClassifyAssignment(b) <==> FormOf(b, l)
  {
    FirstIs(b, '=', 0);
    KeyIff(b, "");
    if l.Assignment? {
      PairIff(b, l.key, l.value);
    }
  }

  lemma BodyForms(b: string, l: Line)
    ensures FormOf(b, l) <==>
            l == if b == "" then Blank else if b[0] == '[' then ClassifyHeader(b) else ClassifyAssignment(b)
  {
    if b != "" {
      if b[0] == '[' {
        BracketForms(b, l);
      } else {
        OtherForms(b, l);
      }
    }
  }

  /** Exactly what each line is: blank, a header, an assignment, or broken in one of four ways. */
  lemma LineForms(line: string, l: Line)
    ensures Classify(line) == l <==> exists b :: Body(line, b) && FormOf(b, l)
  {
    var b := Trim(StripComment(line));
    forall a
      ensures Body(line, a) <==> a == b
    {
      BodyIff(line, a);
    }
    assert Body(line, b);
    BodyForms(b, l);
  }

  // ---- the lines of a text ----

  /** One fgets: through the newline, or 511 characters, or all there is. */
  ghost predicate Chunk(text: string, n: int) {
    && 0 < n <= |text| && n <= 511 && (forall k :: 0 <= k < n - 1 ==> text[k] != '\n')
    && (n == |text| || n == 511 || text[n - 1] == '\n')
  }

  lemma ChunkIff(text: string, n: int)
    requires text != ""
    ensures Chunk(text, n) <==> n == ChunkLength(text)
  {
    var newline := IndexOf(text, '\n', 0);
    assert newline < |text| ==> text[newline] == '\n';
  }

  /** What a C string makes of the chunk: up to its first NUL. */
  ghost predicate Shows(chunk: string, line: string) {
    exists k :: EndsAt(chunk, k) && line == chunk[..k]
  }

  ghost predicate EndsAt(chunk: string, k: int) {
    0 <= k <= |chunk| && (k == |chunk| || chunk[k] == '\0') && forall i :: 0 <= i < k ==> chunk[i] != '\0'
  }

  lemma ShowsIff(chunk: string, line: string)
    ensures Shows(chunk, line) <==> line == Visible(chunk)
  {
    var n := IndexOf(chunk, NUL, 0);
    assert EndsAt(chunk, n);
    assert forall k :: EndsAt(chunk, k) ==> k == n;
  }

  /** A text falls into chunks, and each chunk's string has the form of its line. */
  ghost predicate FallsInto(text: string, lines: seq<Line>)
    decreases |text|
  {
    if text == "" then lines == []
    else lines != [] && exists n, line, b :: FirstFalls(text, lines[0], n, line, b) && FallsInto(text[n..], lines[1..])
  }

  ghost predicate FirstFalls(text: string, l: Line, n: int, line: string, b: string) {
    Chunk(text, n) && Shows(text[..n], line) && Body(line, b) && FormOf(b, l)
  }

  lemma FirstLine(text: string, l: Line, n: int)
    requires text != "" && 0 <= n <= |text|
    ensures (exists line, b :: FirstFalls(text, l, n, line, b)) <==>
            n == ChunkLength(text) && l == Classify(Visible(text[..n]))
  {
    ChunkIff(text, n);
    var seen := Visible(text[..n]);
    forall line
      ensures Shows(text[..n], line) <==> line == seen
    {
      ShowsIff(text[..n], line);
    }
    LineForms(seen, l);
    if n == ChunkLength(text) && l == Classify(seen) {
      var b :| Body(seen, b) && FormOf(b, l);
      assert FirstFalls(text, l, n, seen, b);
    }
  }

  /** The lines of a text are exactly the forms of its chunks. */
  lemma {:induction false} LinesIff(text: string, lines: seq<Line>)
    ensures lines == Lines(text) <==> FallsInto(text, lines)
    decreases |text|
  {
    if text != "" && lines != [] {
      var n := ChunkLength(text);
      FirstLine(text, lines[0], n);
      LinesIff(text[n..], lines[1..]);
      if lines == Lines(text) {
        var line, b :| FirstFalls(text, lines[0], n, line, b);
        assert lines[1..] == Lines(text[n..]);
      }
      if FallsInto(text, lines) {
        var m, line, b :| FirstFalls(text, lines[0], m, line, b) && FallsInto(text[m..], lines[1..]);
        FirstLine(text, lines[0], m);
      }
    }
  }
}
