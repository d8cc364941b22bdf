/** The texts of an INI configuration. */
module IniText {

  import opened Wrappers
  import opened LookupTables
  import opened JsonTypes
  import opened IniReader
  import opened IniWriter

  // Blanks and comments between the lines, the order of lines and sections, and which
  // members they name are free; what is read is what they assign, one after the other.

  /** One entry: what stands before it, and the value its text stands for. */
  datatype Line = Line(gap: string, key: string, text: string, value: Value)

  /** A header, the entries below it, and what stands before the next header or the end. */
  datatype Section = Section(name: string, lines: seq<Line>, gap: string)

  /** A comment with the line end behind it. */
  predicate Comment(t: string) {
    2 <= |t| && t[0] == ';' && LineEnd(t[|t| - 1]) && OneLine(t[1..|t| - 1])
  }

  /** Blanks and whole comments. */
  ghost predicate Gap(g: string)
    decreases |g|
  {
    || g == []
    || (g[0] <= ' ' && Gap(g[1..]))
    || exists n :: 0 < n <= |g| && Comment(g[..n]) && Gap(g[n..])
  }

  /** What follows a value begins with its line end. */
  predicate Broken(g: string) {
    g != [] && LineEnd(g[0])
  }

  /** The text stands for v. */
  predicate Makes(codec: Codec, s: Schema, v: Value, text: string) {
    match s
    case BoolS => v.BoolV? && text == if v.b then "true" else "false"
    case NumberS => v.NumberV? && NumberText(codec, text, v.n)
    case StringS => v.StringV? && OneLine(text) && text == v.s
    case EnumS(table) => v.EnumV? && OneLine(text) && ValueOf(table, text) == Some(v.e)
    case _ => false
  }

  ghost predicate LineOk(codec: Codec, ms: seq<Member>, line: Line) {
    && Gap(line.gap) && GoodKey(line.key)
    && match Find(KeysOf(ms), line.key)
       case Some(i) => Makes(codec, ms[i].schema, line.value, line.text)
       case None => false
  }

  /** The lines of a level with the gap behind them; each value ends its line. */
  ghost predicate LinesOk(codec: Codec, ms: seq<Member>, lines: seq<Line>, gap: string) {
    && Gap(gap) && (forall j :: 0 <= j < |lines| ==> LineOk(codec, ms, lines[j]))
    && (forall j :: 0 < j < |lines| ==> Broken(lines[j].gap)) && (lines != [] ==> Broken(gap))
  }

  function LinesText(lines: seq<Line>, rest: string): (t: string) {
    if lines == [] then rest
    else lines[0].gap + (lines[0].key + (" " + ("= " + (lines[0].text + LinesText(lines[1..], rest)))))
  }

  /** What stands behind a header comes on a new line. */
  predicate Starts(lines: seq<Line>, gap: string) {
    Broken(if lines == [] then gap else lines[0].gap)
  }

  ghost predicate SectionOk(codec: Codec, ms: seq<Member>, section: Section) {
    && GoodName(section.name) && Starts(section.lines, section.gap)
    && match Find(KeysOf(ms), section.name)
       case Some(i) =>
         ms[i].schema.RecordS? && LinesOk(codec, ms[i].schema.members, section.lines, section.gap)
       case None => false
  }

  function SectionsText(sections: seq<Section>): (t: string) {
    if sections == [] then ""
    else Header(sections[0].name) + LinesText(sections[0].lines, sections[0].gap + SectionsText(sections[1..]))
  }

  /** The members when the lines have been read into xs. */
  function Assigned(ms: seq<Member>, xs: seq<Value>, lines: seq<Line>): (ys: seq<Value>)
    ensures |ys| == |xs|
    decreases |lines|
  {
    if lines == [] then xs
    else
      var r := Find(KeysOf(ms), lines[0].key);
      Assigned(ms, if r.Some? && r.value < |xs| then xs[r.value := lines[0].value] else xs, lines[1..])
  }

  /** The members when the sections have been read into xs. */
  function Configured(ms: seq<Member>, xs: seq<Value>, sections: seq<Section>): (ys: seq<Value>)
    ensures |ys| == |xs|
    decreases |sections|
  {
    if sections == [] then xs
    else
      var r := Find(KeysOf(ms), sections[0].name);
      Configured(ms, if r.Some? && r.value < |xs| && ms[r.value].schema.RecordS?
                     then xs[r.value := Sectioned(ms[r.value].schema.members, xs[r.value], sections[0].lines)]
                     else xs, sections[1..])
  }

  /** A member that is a section, with the lines read into it. */
  function Sectioned(ms: seq<Member>, x: Value, lines: seq<Line>): (y: Value) {
    RecordV(Assigned(ms, RecordOf(ms, x), lines))
  }

  // -------------------------------------------------------------------- gaps

  /** A comment reaches to its line end. */
  lemma CommentEnds(t: string, i: nat, n: nat)
    requires i + n <= |t| && Comment(t[i..i + n])
    ensures t[i] == ';' && 0 < n && SkipToLine(t, i) == Found(i + n - 1)
  {
    var c := t[i..i + n];
    assert forall k :: 0 <= k < n ==> c[k] == t[i + k];
    forall k | i < k < i + n - 1 ensures !LineEnd(t[k]) {
      assert c[1..n - 1][k - i - 1] == t[k];
    }
    FindsLine(t, i, i + n - 1);
  }

  lemma NextBlank(t: string, i: nat)
    requires i < |t| && t[i] <= ' '
    ensures SkipFrom(t, i) == SkipFrom(t, i + 1)
  {
  }

  lemma NextComment(t: string, i: nat, n: nat)
    requires i + n <= |t| && Comment(t[i..i + n])
    ensures 0 < n && SkipFrom(t, i) == SkipFrom(t, i + n)
  {
    CommentEnds(t, i, n);
  }

  lemma NothingToSkip(t: string, j: nat)
    requires j <= |t| && Stop(t[j..])
    ensures SkipFrom(t, j) == Found(j)
  {
    assert j < |t| ==> t[j] == t[j..][0];
  }

  lemma Parts(t: string, i: nat, n: nat, j: nat)
    requires i + n <= j <= |t|
    ensures t[i..j][..n] == t[i..i + n] && t[i..j][n..] == t[i + n..j]
  {
  }

  /** A gap begins with a blank or a comment, and the rest is one too. */
  lemma GapStarts(g: string) returns (n: nat)
    requires Gap(g) && g != []
    ensures 0 < n <= |g| && Gap(g[n..]) && (Comment(g[..n]) || (n == 1 && g[0] <= ' '))
  {
    if g[0] <= ' ' && Gap(g[1..]) {
      n := 1;
    } else {
      n :| 0 < n <= |g| && Comment(g[..n]) && Gap(g[n..]);
    }
  }

  /** Blanks and comments are skipped, however many. */
  lemma {:induction false} GapIsSkipped(t: string, i: nat, j: nat)
    requires i <= j <= |t| && Gap(t[i..j]) && Stop(t[j..])
    ensures SkipFrom(t, i) == Found(j)
    decreases j - i
  {
    if i == j {
      NothingToSkip(t, j);
    } else {
      var n := GapStarts(t[i..j]);
      Parts(t, i, n, j);
      if Comment(t[i..i + n]) { NextComment(t, i, n); } else { NextBlank(t, i); }
      GapIsSkipped(t, i + n, j);
    }
  }

  lemma SkipStarts(t: string)
    requires t != []
    ensures SkipWhitespace(t, 0) == SkipFrom(t, 0)
  {
  }

  /** Whatever gap stands before an entry, a header or the end makes no difference. */
  lemma GapReads(codec: Codec, ms: seq<Member>, gap: string, u: string, xs: seq<Value>)
    requires Gap(gap) && Stop(u) && gap + u != []
    ensures ReadEntries(codec, ms, gap + u, xs) == EntriesAt(codec, ms, u, xs)
  {
    var t := gap + u;
    assert t[0..|gap|] == gap && t[|gap|..] == u;
    SkipStarts(t);
    GapIsSkipped(t, 0, |gap|);
  }

  lemma CommentGap(comment: string, gap: string)
    requires Comment(comment) && Gap(gap)
    ensures Gap(comment + gap)
  {
    var g, n := comment + gap, |comment|;
    assert g[..n] == comment && g[n..] == gap;
  }

  /** A whole comment put before an entry, a header or the end changes nothing of what
      is read. */
  lemma CommentsAreSkipped(codec: Codec, ms: seq<Member>, comment: string, gap: string, u: string, xs: seq<Value>)
    requires Comment(comment) && Gap(gap) && Stop(u) && gap + u != []
    ensures ReadEntries(codec, ms, comment + gap + u, xs) == ReadEntries(codec, ms, gap + u, xs)
  {
    CommentGap(comment, gap);
    GapReads(codec, ms, comment + gap, u, xs);
    GapReads(codec, ms, gap, u, xs);
  }

  // ----------------------------------------------------------------- entries

  lemma MadeNumber(codec: Codec, v: Value, text: string, rest: string)
    requires Lawful(codec) && Makes(codec, NumberS, v, text) && Broken(rest)
    ensures ReadValue(codec, NumberS, "= " + (text + rest)) == Ok(rest, v)
  {
    var t := "= " + (text + rest);
    assert t[2..] == text + rest && t[2 + |text|..] == rest && t[2 + |text|] == rest[0];
    assert EndStands(codec, text, v.n, rest);
  }

  lemma MadeBool(codec: Codec, v: Value, text: string, rest: string)
    requires Makes(codec, BoolS, v, text) && Broken(rest)
    ensures ReadValue(codec, BoolS, "= " + (text + rest)) == Ok(rest, v)
  {
    var t := "= " + (text + rest);
    if v.b {
      assert t[..6] == "= true" && t[6..] == rest;
    } else {
      assert t[2] == 'f' && t[..6][2] == 'f';
      assert t[..7] == "= false" && t[7..] == rest;
    }
  }

  lemma MadeText(text: string, rest: string)
    requires OneLine(text) && Broken(rest)
    ensures ReadText("= " + (text + rest)) == Ok(rest, text)
  {
    var t, j := "= " + (text + rest), 2 + |text|;
    assert forall k :: 1 < k < j ==> t[k] == text[k - 2];
    assert t[j] == rest[0];
    FindsLine(t, 1, j);
    assert t[j..] == rest && t[2..j] == text;
  }

  lemma MadeValue(codec: Codec, s: Schema, v: Value, text: string, rest: string)
    requires Lawful(codec) && Makes(codec, s, v, text) && Broken(rest)
    ensures ReadValue(codec, s, "= " + (text + rest)) == Ok(rest, v)
  {
    match s
    case BoolS => MadeBool(codec, v, text, rest);
    case NumberS => MadeNumber(codec, v, text, rest);
    case StringS => MadeText(text, rest);
    case EnumS(_) => MadeText(text, rest);
  }

  /** An entry changes the member it names. */
  lemma EntryMakes(codec: Codec, ms: seq<Member>, line: Line, i: nat, rest: string, xs: seq<Value>)
    requires Lawful(codec) && |xs| == |ms| && LineOk(codec, ms, line) && Broken(rest)
    requires Find(KeysOf(ms), line.key) == Some(i)
    ensures ReadEntry(codec, ms, line.key + (" " + ("= " + (line.text + rest))), xs) == Ok(rest, xs[i := line.value])
  {
    var u := "= " + (line.text + rest);
    KeyFound(line.key, u);
    MadeValue(codec, ms[i].schema, line.value, line.text, rest);
  }

  /** The gap, the entry and then the rest. */
  lemma LineMakes(codec: Codec, ms: seq<Member>, line: Line, i: nat, rest: string, xs: seq<Value>)
    requires Lawful(codec) && |xs| == |ms| && LineOk(codec, ms, line) && Broken(rest)
    requires Find(KeysOf(ms), line.key) == Some(i)
    ensures ReadEntries(codec, ms, line.gap + (line.key + (" " + ("= " + (line.text + rest)))), xs)
         == ReadEntries(codec, ms, rest, xs[i := line.value])
  {
    var u := line.key + (" " + ("= " + (line.text + rest)));
    assert u[0] == line.key[0];
    GapReads(codec, ms, line.gap, u, xs);
    EntryMakes(codec, ms, line, i, rest, xs);
  }

  lemma LinesBroken(lines: seq<Line>, rest: string)
    requires if lines == [] then Broken(rest) else Broken(lines[0].gap)
    ensures Broken(LinesText(lines, rest))
  {
  }

  /** The lines of a level are read, in whatever gaps, up to the header or the end. */
  lemma {:induction false} LinesRead(codec: Codec, ms: seq<Member>, lines: seq<Line>, gap: string, u: string,
                                     xs: seq<Value>)
    requires Lawful(codec) && |xs| == |ms| && LinesOk(codec, ms, lines, gap)
    requires (u == [] || u[0] == '[') && LinesText(lines, gap + u) != []
    ensures ReadEntries(codec, ms, LinesText(lines, gap + u), xs) == Ok(u, Assigned(ms, xs, lines))
    decreases |lines|
  {
    if lines == [] {
      GapReads(codec, ms, gap, u, xs);
    } else {
      var line, rest := lines[0], LinesText(lines[1..], gap + u);
      var i := Find(KeysOf(ms), line.key).value;
      LinesBroken(lines[1..], gap + u);
      LineMakes(codec, ms, line, i, rest, xs);
      LinesRead(codec, ms, lines[1..], gap, u, xs[i := line.value]);
    }
  }

  // ---------------------------------------------------------------- sections

  lemma HeaderFound(name: string, rest: string)
    requires GoodName(name) && Broken(rest)
    ensures ReadHeader(Header(name) + rest) == Ok(rest, name)
  {
    var t, j := Header(name) + rest, |name| + 1;
    assert forall k :: 0 < k < j ==> t[k] == name[k - 1];
    FindsChar(t, 0, j, ']');
    assert t[1..j] == name && t[j + 1..] == rest && t[j + 1] == rest[0];
  }

  lemma SectionMakes(codec: Codec, ms: seq<Member>, section: Section, i: nat, u: string, xs: seq<Value>)
    requires Lawful(codec) && |xs| == |ms| && SectionOk(codec, ms, section) && (u == [] || u[0] == '[')
    requires Find(KeysOf(ms), section.name) == Some(i)
    ensures ReadSection(codec, ms, Header(section.name) + LinesText(section.lines, section.gap + u), xs)
         == Ok(u, xs[i := Sectioned(ms[i].schema.members, xs[i], section.lines)])
  {
    var rest, members := LinesText(section.lines, section.gap + u), ms[i].schema.members;
    LinesBroken(section.lines, section.gap + u);
    HeaderFound(section.name, rest);
    LinesRead(codec, members, section.lines, section.gap, u, RecordOf(members, xs[i]));
  }

  lemma {:induction false} AllSectionsRead(codec: Codec, ms: seq<Member>, sections: seq<Section>, xs: seq<Value>)
    requires Lawful(codec) && |xs| == |ms| && forall j :: 0 <= j < |sections| ==> SectionOk(codec, ms, sections[j])
    ensures ReadSections(codec, ms, SectionsText(sections), xs) == Ok("", Configured(ms, xs, sections))
    decreases |sections|
  {
    if sections != [] {
      var u, i := SectionsText(sections[1..]), Find(KeysOf(ms), sections[0].name).value;
      SectionMakes(codec, ms, sections[0], i, u, xs);
      AllSectionsRead(codec, ms, sections[1..], xs[i := Sectioned(ms[i].schema.members, xs[i], sections[0].lines)]);
    }
  }

  lemma NoSign(codec: Codec, ms: seq<Member>, lines: seq<Line>, gap: string, u: string)
    requires LinesOk(codec, ms, lines, gap) && (u == [] || u[0] == '[') && LinesText(lines, gap + u) != []
    ensures LinesText(lines, gap + u)[0] != '='
  {
    var first := if lines == [] then gap else lines[0].gap;
    if first != [] && first[0] > ' ' {
      var n :| 0 < n <= |first| && Comment(first[..n]) && Gap(first[n..]);
      assert first[0] == first[..n][0];
    }
  }

  /** Read into xs, a configuration assigns what its entries say, in their order: first
      those on top, then those of each section to what that section's member holds. */
  lemma ReadsConfiguration(codec: Codec, ms: seq<Member>, lines: seq<Line>, gap: string, sections: seq<Section>,
                           xs: seq<Value>)
    requires Lawful(codec) && |xs| == |ms| && LinesOk(codec, ms, lines, gap)
    requires forall j :: 0 <= j < |sections| ==> SectionOk(codec, ms, sections[j])
    ensures StructureIni(codec, ms, LinesText(lines, gap + SectionsText(sections)), xs)
         == Some(Configured(ms, Assigned(ms, xs, lines), sections))
  {
    var u := SectionsText(sections);
    var t := LinesText(lines, gap + u);
    if t != [] {
      NoSign(codec, ms, lines, gap, u);
      LinesRead(codec, ms, lines, gap, u, xs);
      AllSectionsRead(codec, ms, sections, Assigned(ms, xs, lines));
    } else {
      assert lines == [] && gap + u == [];
    }
  }

  /** A member holds what the last line that names it says, and keeps what it held if
      none does. */
  lemma {:induction false} LastLineStays(ms: seq<Member>, xs: seq<Value>, lines: seq<Line>, i: nat, j: nat)
    requires i < |xs| && j <= |lines|
    requires forall k :: j <= k < |lines| ==> Find(KeysOf(ms), lines[k].key) != Some(i)
    requires 0 < j ==> Find(KeysOf(ms), lines[j - 1].key) == Some(i)
    ensures Assigned(ms, xs, lines)[i] == if j == 0 then xs[i] else lines[j - 1].value
    decreases |lines|
  {
    if lines != [] {
      var r := Find(KeysOf(ms), lines[0].key);
      var ys := if r.Some? && r.value < |xs| then xs[r.value := lines[0].value] else xs;
      LastLineStays(ms, ys, lines[1..], i, if j == 0 then 0 else j - 1);
    }
  }
}
