/** The INI writer and the round trip. */
module IniWriter {

  import opened Wrappers
  import opened LookupTables
  import opened JsonTypes
  import opened IniReader

  // The text made of a configuration, and that the reader gives the configuration back.

  predicate ScalarHas(s: Schema, v: Value) {
    match s
    case BoolS => v.BoolV?
    case NumberS => v.NumberV?
    case StringS => v.StringV?
    case EnumS(table) => v.EnumV? && v.e in table.values
    case _ => false
  }

  /** The entries of a section. */
  predicate Flat(ms: seq<Member>, vs: seq<Value>) {
    |ms| == |vs| && forall i :: 0 <= i < |ms| ==> ScalarHas(ms[i].schema, vs[i])
  }

  /** A configuration: entries, and sections of entries. */
  predicate Config(ms: seq<Member>, vs: seq<Value>) {
    |ms| == |vs| && forall i :: 0 <= i < |ms| ==>
      if ms[i].schema.RecordS? then vs[i].RecordV? && Flat(ms[i].schema.members, vs[i].record)
          else ScalarHas(ms[i].schema, vs[i])
  }

  function ScalarText(codec: Codec, s: Schema, v: Value): (t: string)
    requires ScalarHas(s, v)
  {
    match s
    case BoolS => if v.b then "true" else "false"
    case NumberS => codec.spell(v.n)
    case StringS => v.s
    case EnumS(table) => NameOf(table, v.e)
  }

  /** write_key_value, up to the line end. */
  function Entry(codec: Codec, m: Member, v: Value): (t: string)
    requires ScalarHas(m.schema, v)
  {
    m.key + (" = " + ScalarText(codec, m.schema, v))
  }

  predicate HasEntries(ms: seq<Member>, i: nat) {
    exists j :: i <= j < |ms| && !ms[j].schema.RecordS?
  }

  /** The entries from member number i on, and `rest`. */
  function Entries(codec: Codec, ms: seq<Member>, vs: seq<Value>, i: nat, rest: string): (t: string)
    requires Config(ms, vs) && i <= |ms|
    decreases |ms| - i
  {
    if i == |ms| then rest
    else if ms[i].schema.RecordS? then Entries(codec, ms, vs, i + 1, rest)
    else Entry(codec, ms[i], vs[i]) + ("\n" + Entries(codec, ms, vs, i + 1, rest))
  }

  /** The entries of a level and the empty line behind them. */
  function Block(codec: Codec, ms: seq<Member>, vs: seq<Value>, rest: string): (t: string)
    requires Config(ms, vs)
  {
    Entries(codec, ms, vs, 0, if HasEntries(ms, 0) then "\n" + rest else rest)
  }

  function Header(name: string): (t: string) {
    "[" + (name + "]")
  }

  /** The sections from member number i on. */
  function Sections(codec: Codec, ms: seq<Member>, vs: seq<Value>, i: nat): (t: string)
    requires Config(ms, vs) && i <= |ms|
    decreases |ms| - i
  {
    if i == |ms| then ""
    else if ms[i].schema.RecordS? then
      Header(ms[i].key) + ("\n" + Block(codec, ms[i].schema.members, vs[i].record, Sections(codec, ms, vs, i + 1)))
    else Sections(codec, ms, vs, i + 1)
  }

  /** serialize_ini. */
  function Ini(codec: Codec, ms: seq<Member>, vs: seq<Value>): (t: string)
    requires Config(ms, vs)
  {
    Block(codec, ms, vs, Sections(codec, ms, vs, 0))
  }

  // ------------------------------------------------- what the format can express

  predicate OneLine(s: string) {
    forall i :: 0 <= i < |s| ==> !LineEnd(s[i])
  }

  predicate GoodKey(key: string) {
    key != [] && key[0] > ' ' && key[0] != ';' && key[0] != '[' && OneLine(key) && '=' !in key
  }

  predicate GoodName(name: string) {
    OneLine(name) && ']' !in name
  }

  predicate GoodScalar(s: Schema, v: Value)
    requires ScalarHas(s, v)
  {
    match s
    case StringS => OneLine(v.s)
    case EnumS(table) => Distinct(table.names) && OneLine(NameOf(table, v.e))
    case _ => true
  }

  predicate GoodEntry(m: Member, v: Value)
    requires ScalarHas(m.schema, v)
  {
    GoodKey(m.key) && GoodScalar(m.schema, v)
  }

  predicate GoodSection(ms: seq<Member>, vs: seq<Value>)
    requires Flat(ms, vs)
  {
    Distinct(KeysOf(ms)) && forall i :: 0 <= i < |ms| ==> GoodEntry(ms[i], vs[i])
  }

  predicate Good(ms: seq<Member>, vs: seq<Value>)
    requires Config(ms, vs)
  {
    Distinct(KeysOf(ms)) && forall i :: 0 <= i < |ms| ==>
      if ms[i].schema.RecordS? then GoodName(ms[i].key) && GoodSection(ms[i].schema.members, vs[i].record)
          else GoodEntry(ms[i], vs[i])
  }

  // ------------------------------------------------------------------ one line

  lemma FindsChar(t: string, i: nat, j: nat, c: char)
    requires i < j < |t| && t[j] == c && !LineEnd(c) && forall k :: i < k < j ==> t[k] != c && !LineEnd(t[k])
    ensures SkipToChar(t, i, c) == Found(j)
    decreases j - i
  {
    if i + 1 < j { FindsChar(t, i + 1, j, c); }
  }

  lemma FindsLine(t: string, i: nat, j: nat)
    requires i < j < |t| && LineEnd(t[j]) && forall k :: i < k < j ==> !LineEnd(t[k])
    ensures SkipToLine(t, i) == Found(j)
    decreases j - i
  {
    if i + 1 < j { FindsLine(t, i + 1, j); }
  }

  /** A line's text reads back exactly when it holds no line end. */
  lemma TextReads(s: string, rest: string)
    ensures ReadText("= " + (s + ("\n" + rest))) == Ok("\n" + rest, s) <==> OneLine(s)
  {
    var t, j := "= " + (s + ("\n" + rest)), 2 + |s|;
    assert forall k :: 0 <= k < |s| ==> t[2 + k] == s[k];
    assert t[j..] == "\n" + rest && t[2..j] == s;
    if OneLine(s) {
      assert forall k :: 1 < k < j ==> t[k] == s[k - 2];
      FindsLine(t, 1, j);
    } else {
      var k :| 0 <= k < |s| && LineEnd(s[k]);
      StopsEarly(t, 1, 2 + k);
    }
  }

  lemma StopsEarly(t: string, i: nat, k: nat)
    requires i < k < |t| && LineEnd(t[k])
    ensures SkipToLine(t, i).Found? && SkipToLine(t, i).at <= k
    decreases k - i
  {
    if i + 1 < k && !LineEnd(t[i + 1]) { StopsEarly(t, i + 1, k); }
  }

  lemma BoolReads(codec: Codec, b: bool, rest: string)
    ensures ReadValue(codec, BoolS, "= " + ((if b then "true" else "false") + ("\n" + rest))) ==
      Ok("\n" + rest, BoolV(b))
  {
    var t := "= " + ((if b then "true" else "false") + ("\n" + rest));
    if b {
      assert t[..6] == "= true" && t[6..] == "\n" + rest;
    } else {
      assert t[2] == 'f' && t[..6][2] == 'f';
      assert t[..7] == "= false" && t[7..] == "\n" + rest;
    }
  }

  lemma NumberReads(codec: Codec, n: int, rest: string)
    requires Lawful(codec)
    ensures ReadValue(codec, NumberS, "= " + (codec.spell(n) + ("\n" + rest))) == Ok("\n" + rest, NumberV(n))
  {
    var t := "= " + (codec.spell(n) + ("\n" + rest));
    assert t[2..] == codec.spell(n) + ("\n" + rest);
    SpelledParses(codec, n, "\n" + rest);
    assert t[2 + |codec.spell(n)|..] == "\n" + rest;
  }

  lemma ScalarReads(codec: Codec, s: Schema, v: Value, rest: string)
    requires Lawful(codec) && ScalarHas(s, v) && GoodScalar(s, v)
    ensures ReadValue(codec, s, "= " + (ScalarText(codec, s, v) + ("\n" + rest))) == Ok("\n" + rest, v)
  {
    match s
    case BoolS => BoolReads(codec, v.b, rest);
    case NumberS => NumberReads(codec, v.n, rest);
    case StringS => TextReads(v.s, rest);
    case EnumS(table) =>
      TextReads(NameOf(table, v.e), rest);
      NameRoundTrip(table, v.e);
  }

  lemma AssignReads(codec: Codec, ms: seq<Member>, i: nat, v: Value, rest: string, xs: seq<Value>)
    requires Lawful(codec) && i < |ms| == |xs| && Distinct(KeysOf(ms)) && ScalarHas(ms[i].schema, v)
    requires GoodScalar(ms[i].schema, v)
    ensures Assign(codec, ms, ms[i].key, "= " + (ScalarText(codec, ms[i].schema, v) + ("\n" + rest)), xs) ==
      Ok("\n" + rest, xs[i := v])
  {
    FindDistinct(KeysOf(ms), i);
    ScalarReads(codec, ms[i].schema, v, rest);
  }

  lemma EntrySplit(key: string, text: string, rest: string)
    ensures (key + (" = " + text)) + rest == key + (" " + ("= " + (text + rest)))
  {
    assert " = " + text == " " + ("= " + text);
  }

  lemma KeyFound(key: string, u: string)
    requires GoodKey(key) && |u| >= 2 && u[0] == '=' && u[1] == ' '
    ensures var t := key + (" " + u);
      SkipToChar(t, 0, '=') == Found(|key| + 1) && t[|key|] == ' ' && t[|key| + 2] == ' ' && t[..|key|] == key &&
        t[|key| + 1..] == u && t[0] == key[0]
  {
    var t, j := key + (" " + u), |key| + 1;
    assert t[j..] == u;
    FindsChar(t, 0, j, '=');
  }

  /** An entry reads as its value. */
  lemma EntryReads(codec: Codec, ms: seq<Member>, i: nat, v: Value, rest: string, xs: seq<Value>)
    requires Lawful(codec) && i < |ms| == |xs| && Distinct(KeysOf(ms)) && ScalarHas(ms[i].schema, v)
    requires GoodEntry(ms[i], v)
    ensures ReadEntry(codec, ms, Entry(codec, ms[i], v) + ("\n" + rest), xs) == Ok("\n" + rest, xs[i := v])
  {
    var text := ScalarText(codec, ms[i].schema, v);
    var u := "= " + (text + ("\n" + rest));
    EntrySplit(ms[i].key, text, "\n" + rest);
    KeyFound(ms[i].key, u);
    AssignReads(codec, ms, i, v, rest, xs);
  }

  // ------------------------------------------------------------------ levels

  lemma {:induction false} SkipsBlanks(t: string, i: nat, j: nat)
    requires i <= j <= |t| && (forall k :: i <= k < j ==> t[k] <= ' ') && (j < |t| ==> t[j] > ' ')
    ensures SkipBlanks(t, i) == j
    decreases j - i
  {
    if i < j { SkipsBlanks(t, i + 1, j); }
  }

  /** Where the next entry, header or the end comes after blanks. */
  predicate Stop(u: string) {
    u == [] || (u[0] > ' ' && u[0] != ';')
  }

  lemma GapSkips(codec: Codec, ms: seq<Member>, gap: string, u: string, xs: seq<Value>)
    requires Blank(gap) && Stop(u) && gap + u != []
    ensures ReadEntries(codec, ms, gap + u, xs) == EntriesAt(codec, ms, u, xs)
  {
    var t := gap + u;
    assert t[|gap|..] == u;
    assert forall k :: 0 <= k < |gap| ==> t[k] == gap[k];
    if gap != [] {
      SkipsBlanks(t, 1, |gap|);
    }
  }

  lemma EntryFollows(codec: Codec, ms: seq<Member>, i: nat, v: Value, gap: string, rest: string, xs: seq<Value>)
    requires Lawful(codec) && i < |ms| == |xs| && Distinct(KeysOf(ms)) && ScalarHas(ms[i].schema, v)
    requires GoodEntry(ms[i], v) && Blank(gap)
    ensures ReadEntries(codec, ms, gap + (Entry(codec, ms[i], v) + ("\n" + rest)), xs) ==
      ReadEntries(codec, ms, "\n" + rest, xs[i := v])
  {
    var u := Entry(codec, ms[i], v) + ("\n" + rest);
    assert u[0] == ms[i].key[0];
    GapSkips(codec, ms, gap, u, xs);
    EntryReads(codec, ms, i, v, rest, xs);
  }

  /** The members with the entries from number i on read. */
  function WithEntries(ms: seq<Member>, vs: seq<Value>, xs: seq<Value>, i: nat): (ys: seq<Value>)
    requires |ms| == |vs| == |xs|
    ensures |ys| == |ms|
  {
    seq(|ms|, j requires 0 <= j < |ms| => if j >= i && !ms[j].schema.RecordS? then vs[j] else xs[j])
  }

  lemma WithEntriesStep(ms: seq<Member>, vs: seq<Value>, xs: seq<Value>, i: nat)
    requires i < |ms| == |vs| == |xs|
    ensures WithEntries(ms, vs, xs, i) ==
      if ms[i].schema.RecordS? then WithEntries(ms, vs, xs, i + 1) else WithEntries(ms, vs, xs[i := vs[i]], i + 1)
    ensures WithEntries(ms, vs, xs, |ms|) == xs
    ensures HasEntries(ms, i) <==> !ms[i].schema.RecordS? || HasEntries(ms, i + 1)
  {
  }

  /** The blanks before what follows the entries. */
  function GapAfter(ms: seq<Member>, i: nat, gap: string): (after: string) {
    if HasEntries(ms, i) then "\n" else gap
  }

  lemma {:induction false} EntriesRead(codec: Codec, ms: seq<Member>, vs: seq<Value>, i: nat, gap: string, rest: string,
                                       xs: seq<Value>)
    requires Lawful(codec) && Config(ms, vs) && Good(ms, vs) && i <= |ms| == |xs| && Blank(gap)
    ensures ReadEntries(codec, ms, gap + Entries(codec, ms, vs, i, rest), xs)
         == ReadEntries(codec, ms, GapAfter(ms, i, gap) + rest, WithEntries(ms, vs, xs, i))
    decreases |ms| - i
  {
    if i == |ms| {
      assert WithEntries(ms, vs, xs, i) == xs;
    } else {
      WithEntriesStep(ms, vs, xs, i);
      if ms[i].schema.RecordS? {
        EntriesRead(codec, ms, vs, i + 1, gap, rest, xs);
      } else {
        EntryFollows(codec, ms, i, vs[i], gap, Entries(codec, ms, vs, i + 1, rest), xs);
        EntriesRead(codec, ms, vs, i + 1, "\n", rest, xs[i := vs[i]]);
      }
    }
  }

  lemma StopsAt(codec: Codec, ms: seq<Member>, gap: string, rest: string, xs: seq<Value>)
    requires Blank(gap) && (rest == [] || rest[0] == '[') && gap + rest != []
    ensures ReadEntries(codec, ms, gap + rest, xs) == Ok(rest, xs)
  {
    GapSkips(codec, ms, gap, rest, xs);
  }

  lemma StopsAfterLine(codec: Codec, ms: seq<Member>, rest: string, xs: seq<Value>)
    requires rest == [] || rest[0] == '['
    ensures ReadEntries(codec, ms, "\n" + ("\n" + rest), xs) == Ok(rest, xs)
  {
    assert "\n" + ("\n" + rest) == "\n\n" + rest;
    StopsAt(codec, ms, "\n\n", rest, xs);
  }

  /** A level's entries are read, up to the header or the end behind them. */
  lemma BlockReads(codec: Codec, ms: seq<Member>, vs: seq<Value>, gap: string, rest: string, xs: seq<Value>)
    requires Lawful(codec) && Config(ms, vs) && Good(ms, vs) && |ms| == |xs| && Blank(gap)
    requires (rest == [] || rest[0] == '[') && (gap != [] || rest != [] || HasEntries(ms, 0))
    ensures ReadEntries(codec, ms, gap + Block(codec, ms, vs, rest), xs) == Ok(rest, WithEntries(ms, vs, xs, 0))
  {
    if HasEntries(ms, 0) {
      EntriesRead(codec, ms, vs, 0, gap, "\n" + rest, xs);
      StopsAfterLine(codec, ms, rest, WithEntries(ms, vs, xs, 0));
    } else {
      EntriesRead(codec, ms, vs, 0, gap, rest, xs);
      StopsAt(codec, ms, gap, rest, WithEntries(ms, vs, xs, 0));
    }
  }

  // ---------------------------------------------------------------- sections

  lemma HeaderReads(name: string, rest: string)
    requires GoodName(name)
    ensures ReadHeader(Header(name) + ("\n" + rest)) == Ok("\n" + rest, name)
  {
    var t, j := Header(name) + ("\n" + rest), |name| + 1;
    assert forall k :: 0 <= k < |name| ==> t[1 + k] == name[k];
    assert forall k :: 0 < k < j ==> t[k] == name[k - 1];
    FindsChar(t, 0, j, ']');
    assert t[1..j] == name && t[j + 1..] == "\n" + rest;
  }

  lemma SectionStarts(codec: Codec, ms: seq<Member>, vs: seq<Value>, i: nat)
    requires Config(ms, vs) && i <= |ms|
    ensures var t := Sections(codec, ms, vs, i); t == [] || t[0] == '['
    ensures Sections(codec, ms, vs, i) == [] ==> forall j :: i <= j < |ms| ==> !ms[j].schema.RecordS?
    decreases |ms| - i
  {
    if i < |ms| { SectionStarts(codec, ms, vs, i + 1); }
  }

  lemma FlatIsConfig(ms: seq<Member>, vs: seq<Value>, xs: seq<Value>)
    requires Flat(ms, vs) && GoodSection(ms, vs) && |xs| == |ms|
    ensures Config(ms, vs) && Good(ms, vs) && WithEntries(ms, vs, xs, 0) == vs
  {
  }

  lemma SectionReads(codec: Codec, ms: seq<Member>, vs: seq<Value>, i: nat, rest: string, xs: seq<Value>)
    requires Lawful(codec) && Config(ms, vs) && Good(ms, vs) && i < |ms| == |xs| && ms[i].schema.RecordS?
    requires rest == [] || rest[0] == '['
    ensures Config(ms[i].schema.members, vs[i].record)
    ensures ReadSection(codec, ms, Header(ms[i].key) + ("\n" + Block(codec, ms[i].schema.members, vs[i].record, rest)),
      xs)
         == Ok(rest, xs[i := vs[i]])
  {
    var s, ys := ms[i].schema, RecordOf(ms[i].schema.members, xs[i]);
    FlatIsConfig(s.members, vs[i].record, ys);
    HeaderReads(ms[i].key, Block(codec, s.members, vs[i].record, rest));
    FindDistinct(KeysOf(ms), i);
    BlockReads(codec, s.members, vs[i].record, "\n", rest, ys);
  }

  /** The members with the sections from number i on read. */
  function WithSections(ms: seq<Member>, vs: seq<Value>, xs: seq<Value>, i: nat): (ys: seq<Value>)
    requires |ms| == |vs| == |xs|
    ensures |ys| == |ms|
  {
    seq(|ms|, j requires 0 <= j < |ms| => if j >= i && ms[j].schema.RecordS? then vs[j] else xs[j])
  }

  lemma WithSectionsStep(ms: seq<Member>, vs: seq<Value>, xs: seq<Value>, i: nat)
    requires i < |ms| == |vs| == |xs|
    ensures WithSections(ms, vs, xs, i) ==
      if ms[i].schema.RecordS? then WithSections(ms, vs, xs[i := vs[i]], i + 1) else WithSections(ms, vs, xs, i + 1)
  {
  }

  lemma {:induction false} SectionsRead(codec: Codec, ms: seq<Member>, vs: seq<Value>, i: nat, xs: seq<Value>)
    requires Lawful(codec) && Config(ms, vs) && Good(ms, vs) && i <= |ms| == |xs|
    ensures ReadSections(codec, ms, Sections(codec, ms, vs, i), xs) == Ok("", WithSections(ms, vs, xs, i))
    decreases |ms| - i
  {
    if i == |ms| {
      assert WithSections(ms, vs, xs, i) == xs;
    } else {
      WithSectionsStep(ms, vs, xs, i);
      if ms[i].schema.RecordS? {
        SectionStarts(codec, ms, vs, i + 1);
        SectionReads(codec, ms, vs, i, Sections(codec, ms, vs, i + 1), xs);
        SectionsRead(codec, ms, vs, i + 1, xs[i := vs[i]]);
      } else {
        SectionsRead(codec, ms, vs, i + 1, xs);
      }
    }
  }

  lemma EntriesStart(codec: Codec, ms: seq<Member>, vs: seq<Value>, i: nat, rest: string)
    requires Config(ms, vs) && Good(ms, vs) && i <= |ms|
    ensures var t := Entries(codec, ms, vs, i, rest);
      if HasEntries(ms, i) then t != [] && t[0] != '=' else t == rest
    decreases |ms| - i
  {
    if i < |ms| && ms[i].schema.RecordS? { EntriesStart(codec, ms, vs, i + 1, rest); }
    else if i < |ms| { assert Entry(codec, ms[i], vs[i])[0] == ms[i].key[0]; }
  }

  lemma IniStart(codec: Codec, ms: seq<Member>, vs: seq<Value>)
    requires Config(ms, vs) && Good(ms, vs)
    ensures var t := Ini(codec, ms, vs); if t == [] then ms == [] else t[0] != '='
  {
    var sections := Sections(codec, ms, vs, 0);
    SectionStarts(codec, ms, vs, 0);
    EntriesStart(codec, ms, vs, 0, if HasEntries(ms, 0) then "\n" + sections else sections);
    if ms != [] { EveryMember(ms); }
  }

  lemma LevelsRead(codec: Codec, ms: seq<Member>, vs: seq<Value>, xs: seq<Value>)
    requires Lawful(codec) && Config(ms, vs) && Good(ms, vs) && |xs| == |ms| && Ini(codec, ms, vs) != []
    ensures ReadEntries(codec, ms, Ini(codec, ms, vs), xs) == Ok(Sections(codec, ms, vs, 0), WithEntries(ms, vs, xs, 0))
  {
    var sections := Sections(codec, ms, vs, 0);
    SectionStarts(codec, ms, vs, 0);
    EntriesStart(codec, ms, vs, 0, if HasEntries(ms, 0) then "\n" + sections else sections);
    BlockReads(codec, ms, vs, "", sections, xs);
    assert "" + Ini(codec, ms, vs) == Ini(codec, ms, vs);
  }

  /** The reader recovers exactly what the writer emitted, whatever was there before. */
  lemma IniRoundTrip(codec: Codec, ms: seq<Member>, vs: seq<Value>, xs: seq<Value>)
    requires Lawful(codec) && Config(ms, vs) && Good(ms, vs) && |xs| == |ms|
    ensures StructureIni(codec, ms, Ini(codec, ms, vs), xs) == Some(vs)
  {
    IniStart(codec, ms, vs);
    if Ini(codec, ms, vs) != [] {
      var ys := WithEntries(ms, vs, xs, 0);
      LevelsRead(codec, ms, vs, xs);
      SectionsRead(codec, ms, vs, 0, ys);
      assert WithSections(ms, vs, ys, 0) == vs;
    }
  }

  lemma EveryMember(ms: seq<Member>)
    requires ms != []
    ensures HasEntries(ms, 0) || exists j :: 0 <= j < |ms| && ms[j].schema.RecordS?
  {
    assert ms[0].schema.RecordS? || !ms[0].schema.RecordS?;
  }
}
