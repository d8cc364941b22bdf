/** The INI writer as it runs, filling the caller's buffer.  Every method appends the
    text it stands for to what the buffer holds and leaves the bytes behind it alone.
    A loop keeps what is written, followed by what is left to write, equal to the whole;
    the lemmas in between take one line or one section from what is left.  The room
    needed is a precondition, as the code does not recover from running out of it. */
module IniBuffer {

  import opened Wrappers
  import opened Strings
  import opened LookupTables
  import opened JsonTypes
  import opened IniReader
  import opened IniWriter
  import IniScanner
  import JsonWriter

  lemma {:induction false} EntriesRest(codec: Codec, ms: seq<Member>, vs: seq<Value>, i: nat, tail: string,
                                       rest: string)
    requires Config(ms, vs) && i <= |ms|
    ensures Entries(codec, ms, vs, i, tail + rest) == Entries(codec, ms, vs, i, tail) + rest
    decreases |ms| - i
  {
    if i < |ms| {
      EntriesRest(codec, ms, vs, i + 1, tail, rest);
      if !ms[i].schema.RecordS? {
        Assoc("\n", Entries(codec, ms, vs, i + 1, tail), rest);
        Assoc(Entry(codec, ms[i], vs[i]), "\n" + Entries(codec, ms, vs, i + 1, tail), rest);
      }
    }
  }

  lemma BlockRest(codec: Codec, ms: seq<Member>, vs: seq<Value>, rest: string)
    requires Config(ms, vs)
    ensures Block(codec, ms, vs, rest) == Block(codec, ms, vs, "") + rest
  {
    EntriesRest(codec, ms, vs, 0, if HasEntries(ms, 0) then "\n" else "", rest);
    assert "\n" + "" == "\n" && "" + rest == rest;
  }

  /** A line that is complete: the entry and its line end. */
  function Line(codec: Codec, m: Member, v: Value): (t: string)
    requires ScalarHas(m.schema, v)
  {
    Entry(codec, m, v) + "\n"
  }

  /** write_key_value: a bool's text comes with the spaces and the line end. */
  method WriteEntry(codec: Codec, m: Member, v: Value, buf: array<char>, pos: nat) returns (n: nat)
    requires ScalarHas(m.schema, v) && pos + |Line(codec, m, v)| < buf.Length
    modifies buf
    ensures n == pos + |Line(codec, m, v)| && buf[..n] == old(buf[..pos]) + Line(codec, m, v)
    ensures forall k :: n <= k < buf.Length ==> buf[k] == old(buf[k])
  {
    ghost var text := ScalarText(codec, m.schema, v);
    n := JsonWriter.Write(buf, pos, m.key);
    if m.schema.BoolS? {
      assert " = true\n" == (" = " + "true") + "\n" && " = false\n" == (" = " + "false") + "\n";
      n := JsonWriter.Write(buf, n, if v.b then " = true\n" else " = false\n");
      LineJoined(old(buf[..pos]), m.key, " = " + text, "\n");
    } else {
      n := JsonWriter.Write(buf, n, " = ");
      n := WriteText(codec, m.schema, v, buf, n);
      TextJoined(old(buf[..pos]), m.key, text);
    }
  }

  lemma LineJoined(before: string, key: string, text: string, end: string)
    ensures (before + key) + (text + end) == before + ((key + text) + end)
  {
  }

  lemma TextJoined(before: string, key: string, text: string)
    ensures ((before + key) + " = ") + (text + "\n") == before + ((key + (" = " + text)) + "\n")
  {
    Assoc(key, " = ", text);
    Assoc(before, key, " = ");
    LineJoined(before, key + " = ", text, "\n");
  }

  /** write_value of a number, a text or an enumeration, with the line end. */
  method WriteText(codec: Codec, s: Schema, v: Value, buf: array<char>, pos: nat) returns (n: nat)
    requires ScalarHas(s, v) && pos + |ScalarText(codec, s, v)| + 1 < buf.Length
    modifies buf
    ensures n == pos + |ScalarText(codec, s, v)| + 1 && buf[..n] == old(buf[..pos]) + (ScalarText(codec, s, v) + "\n")
    ensures forall k :: n <= k < buf.Length ==> buf[k] == old(buf[k])
  {
    n := JsonWriter.Write(buf, pos, ScalarText(codec, s, v));
    n := JsonWriter.Write(buf, n, "\n");
    Assoc(old(buf[..pos]), ScalarText(codec, s, v), "\n");
  }

  lemma EntriesNext(codec: Codec, ms: seq<Member>, vs: seq<Value>, i: nat, rest: string, was: string)
    requires Config(ms, vs) && i < |ms| && !ms[i].schema.RecordS?
    ensures was + Entries(codec, ms, vs, i, rest) ==
      (was + Line(codec, ms[i], vs[i])) + Entries(codec, ms, vs, i + 1, rest)
    ensures |Entries(codec, ms, vs, i, rest)| == |Line(codec, ms[i], vs[i])| + |Entries(codec, ms, vs, i + 1, rest)|
  {
    Assoc(Entry(codec, ms[i], vs[i]), "\n", Entries(codec, ms, vs, i + 1, rest));
    Assoc(was, Line(codec, ms[i], vs[i]), Entries(codec, ms, vs, i + 1, rest));
  }

  /** The entries of a level and the empty line behind them. */
  method WriteBlock(codec: Codec, ms: seq<Member>, vs: seq<Value>, buf: array<char>, pos: nat) returns (n: nat)
    requires Config(ms, vs) && pos + |Block(codec, ms, vs, "")| < buf.Length
    modifies buf
    ensures n == pos + |Block(codec, ms, vs, "")| && buf[..n] == old(buf[..pos]) + Block(codec, ms, vs, "")
    ensures forall k :: n <= k < buf.Length ==> buf[k] == old(buf[k])
  {
    var tail := if HasEntries(ms, 0) then "\n" else "";
    ghost var all := Entries(codec, ms, vs, 0, tail);
    ghost var end := pos + |all|;
    assert "\n" + "" == "\n";
    assert all == Block(codec, ms, vs, "");
    n := pos;
    for i := 0 to |ms|
      invariant n + |Entries(codec, ms, vs, i, tail)| == end
      invariant buf[..n] + Entries(codec, ms, vs, i, tail) == old(buf[..pos]) + all
      invariant forall k :: end <= k < buf.Length ==> buf[k] == old(buf[k])
    {
      if !ms[i].schema.RecordS? {
        EntriesNext(codec, ms, vs, i, tail, buf[..n]);
        n := WriteEntry(codec, ms[i], vs[i], buf, n);
      }
    }
    if HasEntries(ms, 0) { n := JsonWriter.Write(buf, n, "\n"); }
  }

  /** A section as it is written: its header line and its entries. */
  function Section(codec: Codec, name: string, ms: seq<Member>, vs: seq<Value>): (t: string)
    requires Config(ms, vs)
  {
    Header(name) + ("\n" + Block(codec, ms, vs, ""))
  }

  /** write_header. */
  method WriteSection(codec: Codec, name: string, ms: seq<Member>, vs: seq<Value>, buf: array<char>, pos: nat)
    returns (n: nat)
    requires Config(ms, vs) && pos + |Section(codec, name, ms, vs)| < buf.Length
    modifies buf
    ensures n == pos + |Section(codec, name, ms, vs)| && buf[..n] == old(buf[..pos]) + Section(codec, name, ms, vs)
    ensures forall k :: n <= k < buf.Length ==> buf[k] == old(buf[k])
  {
    n := JsonWriter.Write(buf, pos, "[");
    n := JsonWriter.Write(buf, n, name);
    n := JsonWriter.Write(buf, n, "]\n");
    n := WriteBlock(codec, ms, vs, buf, n);
    SectionJoined(old(buf[..pos]), name, Block(codec, ms, vs, ""));
  }

  lemma SectionJoined(before: string, name: string, block: string)
    ensures (((before + "[") + name) + "]\n") + block == before + (Header(name) + ("\n" + block))
  {
    assert "]\n" == "]" + "\n";
    Assoc(before, "[", name);
    Assoc("[", name, "]");
    Assoc("[" + name, "]", "\n");
    Assoc(before, "[" + name, "]\n");
    Assoc(Header(name), "\n", block);
    Assoc(before, Header(name) + "\n", block);
  }

  lemma SectionsNext(codec: Codec, ms: seq<Member>, vs: seq<Value>, i: nat, was: string)
    requires Config(ms, vs) && i < |ms| && ms[i].schema.RecordS?
    ensures Config(ms[i].schema.members, vs[i].record)
    ensures var one := Section(codec, ms[i].key, ms[i].schema.members, vs[i].record);
      && was + Sections(codec, ms, vs, i) == (was + one) + Sections(codec, ms, vs, i + 1)
      && |Sections(codec, ms, vs, i)| == |one| + |Sections(codec, ms, vs, i + 1)|
  {
    var m, rest := ms[i], Sections(codec, ms, vs, i + 1);
    var block := Block(codec, m.schema.members, vs[i].record, "");
    BlockRest(codec, m.schema.members, vs[i].record, rest);
    Assoc("\n", block, rest);
    Assoc(Header(m.key), "\n" + block, rest);
    Assoc(was, Header(m.key) + ("\n" + block), rest);
  }

  method WriteSections(codec: Codec, ms: seq<Member>, vs: seq<Value>, buf: array<char>, pos: nat) returns (n: nat)
    requires Config(ms, vs) && pos + |Sections(codec, ms, vs, 0)| < buf.Length
    modifies buf
    ensures n == pos + |Sections(codec, ms, vs, 0)| && buf[..n] == old(buf[..pos]) + Sections(codec, ms, vs, 0)
    ensures forall k :: n <= k < buf.Length ==> buf[k] == old(buf[k])
  {
    ghost var end := pos + |Sections(codec, ms, vs, 0)|;
    n := pos;
    for i := 0 to |ms|
      invariant n + |Sections(codec, ms, vs, i)| == end
      invariant buf[..n] + Sections(codec, ms, vs, i) == old(buf[..pos]) + Sections(codec, ms, vs, 0)
      invariant forall k :: end <= k < buf.Length ==> buf[k] == old(buf[k])
    {
      if ms[i].schema.RecordS? {
        SectionsNext(codec, ms, vs, i, buf[..n]);
        n := WriteSection(codec, ms[i].key, ms[i].schema.members, vs[i].record, buf, n);
      }
    }
  }

  /** serialize_ini into a buffer with room to spare: the number of bytes written. */
  method WriteIni(codec: Codec, ms: seq<Member>, vs: seq<Value>, buf: array<char>) returns (n: nat)
    requires Config(ms, vs) && |Ini(codec, ms, vs)| < buf.Length
    modifies buf
    ensures n == |Ini(codec, ms, vs)| && buf[..n] == Ini(codec, ms, vs)
    ensures forall k :: n <= k < buf.Length ==> buf[k] == old(buf[k])
  {
    BlockRest(codec, ms, vs, Sections(codec, ms, vs, 0));
    n := WriteBlock(codec, ms, vs, buf, 0);
    n := WriteSections(codec, ms, vs, buf, n);
  }

  /** A configuration written to a buffer and read from it again is the same. */
  method WriteAndRead(codec: Codec, ms: seq<Member>, vs: seq<Value>, xs: seq<Value>, buf: array<char>)
    returns (r: Option<seq<Value>>)
    requires Lawful(codec) && Config(ms, vs) && Good(ms, vs) && |xs| == |ms| && |Ini(codec, ms, vs)| < buf.Length
    modifies buf
    ensures r == Some(vs)
  {
    var n := WriteIni(codec, ms, vs, buf);
    IniRoundTrip(codec, ms, vs, xs);
    r := IniScanner.ScanIni(codec, ms, buf[..n], xs);
  }
}
