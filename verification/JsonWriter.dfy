/** The JSON writer and the round trip. */
module JsonWriter {

  import opened Wrappers
  import opened Strings
  import opened LookupTables
  import opened JsonTypes
  import opened JsonReader
  import opened JsonText

  // The text made of a value, the methods that put it into the caller's buffer, and that
  // the reader gives the value back.

  /** v is an object of type s. */
  predicate HasType(s: Schema, v: Value)
    decreases s
  {
    match s
    case BoolS => v.BoolV?
    case NumberS => v.NumberV?
    case StringS => v.StringV?
    case EnumS(table) => v.EnumV? && v.e in table.values
    case ListS(e) => v.ListV? && forall i :: 0 <= i < |v.list| ==> HasType(e, v.list[i])
    case TupleS(es) => v.TupleV? && |v.tuple| == |es| && forall i :: 0 <= i < |es| ==> HasType(es[i], v.tuple[i])
    case RecordS(ms) => v.RecordV? && |v.record| == |ms| && forall i :: 0 <= i < |ms| ==>
      HasType(ms[i].schema, v.record[i])
  }

  /** What the text format can express: the writer does not escape, and the reader
      knows neither empty records nor empty tuples. */
  ghost predicate Readable(s: Schema, v: Value)
    requires HasType(s, v)
    decreases s
  {
    match s
    case BoolS => true
    case NumberS => true
    case StringS => Closed(v.s)
    case EnumS(table) => Distinct(table.names) && Closed(NameOf(table, v.e))
    case ListS(e) => forall i :: 0 <= i < |v.list| ==> Readable(e, v.list[i])
    case TupleS(es) => es != [] && forall i :: 0 <= i < |es| ==> Readable(es[i], v.tuple[i])
    case RecordS(ms) =>
      ms != [] && Distinct(KeysOf(ms)) && forall i :: 0 <= i < |ms| ==>
        Closed(ms[i].key) && Readable(ms[i].schema, v.record[i])
  }

  /** No object of the type nests deeper than d. */
  predicate Shallow(s: Schema, d: nat)
    decreases s
  {
    match s
    case BoolS => true
    case NumberS => true
    case StringS => true
    case EnumS(_) => true
    case ListS(e) => 0 < d && Shallow(e, d - 1)
    case TupleS(es) => 0 < d && forall i :: 0 <= i < |es| ==> Shallow(es[i], d - 1)
    case RecordS(ms) => 0 < d && forall i :: 0 <= i < |ms| ==> Shallow(ms[i].schema, d - 1)
  }

  function Tabs(n: nat): (t: string)
    ensures |t| == n && forall i :: 0 <= i < n ==> t[i] == '\t'
  {
    seq(n, i => '\t')
  }

  // A list and a tuple are written alike.

  predicate Sequence(s: Schema, v: Value) {
    (s.ListS? || s.TupleS?) && HasType(s, v)
  }

  function Contents(s: Schema, v: Value): (vs: seq<Value>)
    requires Sequence(s, v)
  {
    if s.ListS? then v.list else v.tuple
  }

  function ElementType(s: Schema, v: Value, i: nat): (e: Schema)
    requires Sequence(s, v) && i < |Contents(s, v)|
    ensures e < s && HasType(e, Contents(s, v)[i])
  {
    if s.ListS? then s.elem else s.elems[i]
  }

  /** write_value: the text of a value. */
  function Json(codec: Codec, s: Schema, v: Value, depth: nat): (t: string)
    requires HasType(s, v)
    decreases s, 1
  {
    match s
    case BoolS => if v.b then "true" else "false"
    case NumberS => codec.spell(v.n)
    case StringS => Quoted(v.s)
    case EnumS(table) => Quoted(NameOf(table, v.e))
    case ListS(_) => ListText(JsonItems(codec, s, v, depth), "")
    case TupleS(_) => ListText(JsonItems(codec, s, v, depth), "")
    case RecordS(_) => RecordText(JsonFields(codec, s, v, depth))
  }

  function JsonItems(codec: Codec, s: Schema, v: Value, depth: nat): (items: seq<Item>)
    requires Sequence(s, v)
    ensures |items| == |Contents(s, v)|
    decreases s, 0
  {
    seq(|Contents(s, v)|, i requires 0 <= i < |Contents(s, v)| =>
      Item(if i == 0 then "" else " ", Json(codec, ElementType(s, v, i), Contents(s, v)[i], depth + 1), ""))
  }

  function JsonFields(codec: Codec, s: Schema, v: Value, depth: nat): (fields: seq<Field>)
    requires s.RecordS? && HasType(s, v)
    ensures |fields| == |s.members|
    decreases s, 0
  {
    seq(|s.members|, j requires 0 <= j < |s.members| =>
      Field("\n" + Tabs(depth + 1), s.members[j].key, " ",
            Item(" ", Json(codec, s.members[j].schema, v.record[j], depth + 1),
                 if j == |s.members| - 1 then "\n" + Tabs(depth) else "")))
  }

  // --------------------------------------------------------------- round trip

  /** What reading the text of v makes of an object x that is there already: lists grow,
      members and elements are read into, and anything else is replaced. */
  function Merge(s: Schema, x: Value, v: Value): (y: Value)
    requires HasType(s, v)
    decreases s
  {
    match s
    case ListS(_) => ListV(ListOf(x) + v.list)
    case TupleS(es) => TupleV(seq(|es|, i requires 0 <= i < |es| => Merge(es[i], TupleOf(es, x)[i], v.tuple[i])))
    case RecordS(ms) =>
      RecordV(seq(|ms|, i requires 0 <= i < |ms| => Merge(ms[i].schema, RecordOf(ms, x)[i], v.record[i])))
    case _ => v
  }

  /** A default object becomes v. */
  lemma {:induction false} MergeDefault(s: Schema, v: Value)
    requires HasType(s, v)
    ensures Merge(s, Default(s), v) == v
    decreases s
  {
    match s
    case TupleS(es) =>
      forall i | 0 <= i < |es| ensures Merge(es[i], TupleOf(es, Default(s))[i], v.tuple[i]) == v.tuple[i] {
        MergeDefault(es[i], v.tuple[i]);
      }
    case RecordS(ms) =>
      forall i | 0 <= i < |ms|
        ensures Merge(ms[i].schema, RecordOf(ms, Default(s))[i], v.record[i]) == v.record[i]
      {
        MergeDefault(ms[i].schema, v.record[i]);
      }
    case _ =>
  }

  /** What is written is a text that makes of any object what the value says. */
  lemma {:induction false} WritesSpelling(codec: Codec, s: Schema, x: Value, v: Value, depth: nat)
    requires Lawful(codec) && HasType(s, v) && Readable(s, v)
    ensures Spells(codec, s, x, Merge(s, x, v), Json(codec, s, v, depth))
    decreases s, 1
  {
    match s
    case BoolS =>
    case NumberS => assert NumberText(codec, codec.spell(v.n), v.n);
    case StringS =>
    case EnumS(table) => NameRoundTrip(table, v.e);
    case ListS(_) => WritesList(codec, s, ListOf(x), v, depth);
    case TupleS(es) => WritesTuple(codec, s, x, v, depth);
    case RecordS(ms) =>
      WritesRecord(codec, s, x, v, depth);
      UpdatesSpell(codec, s, RecordOf(ms, x), Merge(s, x, v).record, JsonFields(codec, s, v, depth));
  }

  lemma {:induction false} WritesList(codec: Codec, s: Schema, list: seq<Value>, v: Value, depth: nat)
    requires Lawful(codec) && s.ListS? && HasType(s, v) && Readable(s, v)
    ensures Blank("") && SpellsList(codec, s, list, list + v.list, JsonItems(codec, s, v, depth))
    decreases s, 0
  {
    var items := JsonItems(codec, s, v, depth);
    forall i | 0 <= i < |items|
      ensures Spaced(items[i]) && Spells(codec, s.elem, Default(s.elem), v.list[i], items[i].text)
    {
      WritesSpelling(codec, s.elem, Default(s.elem), v.list[i], depth + 1);
      MergeDefault(s.elem, v.list[i]);
    }
  }

  lemma {:induction false} WritesTuple(codec: Codec, s: Schema, x: Value, v: Value, depth: nat)
    requires Lawful(codec) && s.TupleS? && HasType(s, v) && Readable(s, v)
    ensures SpellsTuple(codec, s, TupleOf(s.elems, x), Merge(s, x, v).tuple, JsonItems(codec, s, v, depth))
    decreases s, 0
  {
    var items, xs, vs := JsonItems(codec, s, v, depth), TupleOf(s.elems, x), Merge(s, x, v).tuple;
    forall i | 0 <= i < |items| ensures Spaced(items[i]) && Spells(codec, s.elems[i], xs[i], vs[i], items[i].text) {
      WritesSpelling(codec, s.elems[i], xs[i], v.tuple[i], depth + 1);
    }
  }

  lemma {:induction false} WritesRecord(codec: Codec, s: Schema, x: Value, v: Value, depth: nat)
    requires Lawful(codec) && s.RecordS? && HasType(s, v) && Readable(s, v)
    ensures Updates(codec, s, RecordOf(s.members, x), Merge(s, x, v).record, JsonFields(codec, s, v, depth))
    decreases s, 0, 1
  {
    var fields, xs, vs := JsonFields(codec, s, v, depth), RecordOf(s.members, x), Merge(s, x, v).record;
    AllNamed(codec, s, v, depth);
    forall j | 0 <= j < |fields| ensures FieldSpaced(fields[j]) && Gives(codec, s, xs, vs, fields[j]) {
      WritesField(codec, s, x, v, depth, j);
    }
  }

  lemma {:induction false} WritesField(codec: Codec, s: Schema, x: Value, v: Value, depth: nat, j: nat)
    requires Lawful(codec) && s.RecordS? && HasType(s, v) && Readable(s, v) && j < |s.members|
    ensures var f := JsonFields(codec, s, v, depth)[j];
      FieldSpaced(f) && Gives(codec, s, RecordOf(s.members, x), Merge(s, x, v).record, f)
    decreases s, 0, 0
  {
    var m := s.members[j];
    FindDistinct(KeysOf(s.members), j);
    FieldOf(codec, s, v, depth, j);
    WritesSpelling(codec, m.schema, RecordOf(s.members, x)[j], v.record[j], depth + 1);
  }

  lemma FieldOf(codec: Codec, s: Schema, v: Value, depth: nat, j: nat)
    requires s.RecordS? && HasType(s, v) && j < |s.members| && Closed(s.members[j].key)
    ensures var f := JsonFields(codec, s, v, depth)[j];
      && FieldSpaced(f) && f.key == s.members[j].key
      && f.item.text == Json(codec, s.members[j].schema, v.record[j], depth + 1)
  {
  }

  /** The fields written name every member once. */
  lemma AllNamed(codec: Codec, s: Schema, v: Value, depth: nat)
    requires s.RecordS? && HasType(s, v) && Distinct(KeysOf(s.members))
    ensures var fields, keys := JsonFields(codec, s, v, depth), KeysOf(s.members);
      NamesOnce(fields, keys) && forall i :: 0 <= i < |keys| ==> Named(fields, |fields|, keys[i])
  {
    var fields, keys := JsonFields(codec, s, v, depth), KeysOf(s.members);
    forall j | 0 <= j < |fields| ensures fields[j].key == keys[j] && Find(keys, fields[j].key) == Some(j) {
      FindDistinct(keys, j);
    }
    forall i | 0 <= i < |keys| ensures Named(fields, |fields|, keys[i]) {
      assert fields[i].key == keys[i];
    }
  }

  /** serialize_json ends the text with a line end. */
  function SerializeJson(codec: Codec, s: Schema, v: Value): (t: string)
    requires HasType(s, v)
  {
    Json(codec, s, v, 0) + "\n"
  }

  lemma LineReads(strict: bool, codec: Codec, s: Schema, x: Value, v: Value, t: string, line: string)
    requires Lawful(codec) && Spells(codec, s, x, v, t) && line == t + "\n"
    ensures ReadValue(strict, codec, s, line, x) == Ok(|line| - 1, v)
  {
    ReadsAlone(strict, codec, s, x, v, t, "\n");
  }

  /** What serialize_json writes is complete: strictly or not, it reads back into any
      object, up to the line end. */
  lemma SerializedIsComplete(strict: bool, codec: Codec, s: Schema, x: Value, v: Value)
    requires Lawful(codec) && HasType(s, v) && Readable(s, v)
    ensures ReadValue(strict, codec, s, SerializeJson(codec, s, v), x) ==
      Ok(|SerializeJson(codec, s, v)| - 1, Merge(s, x, v))
  {
    WritesSpelling(codec, s, x, v, 0);
    LineReads(strict, codec, s, x, Merge(s, x, v), Json(codec, s, v, 0), SerializeJson(codec, s, v));
  }

  /** What serialize_json writes, structure_json reads back: into a default object as
      the value, and into any other as the two merged. */
  lemma JsonRoundTrip(codec: Codec, s: Schema, x: Value, v: Value)
    requires Lawful(codec) && HasType(s, v) && Readable(s, v)
    ensures StructureJson(codec, s, SerializeJson(codec, s, v), x) == Some(Merge(s, x, v))
    ensures StructureJson(codec, s, SerializeJson(codec, s, v), Default(s)) == Some(v)
  {
    SerializedIsComplete(false, codec, s, x, v);
    SerializedIsComplete(false, codec, s, Default(s), v);
    MergeDefault(s, v);
  }

  // ------------------------------------------------------------------ writing

  /** ful::copy of a text that fits. */
  method Write(buf: array<char>, pos: nat, data: string) returns (n: nat)
    requires pos + |data| < buf.Length
    modifies buf
    ensures n == pos + |data| && buf[..n] == old(buf[..pos]) + data
    ensures (forall k :: n <= k < buf.Length ==> buf[k] == old(buf[k]))
  {
    for i := 0 to |data|
      invariant buf[..pos + i] == old(buf[..pos]) + data[..i]
      invariant (forall k :: pos + i <= k < buf.Length ==> buf[k] == old(buf[k]))
    {
      buf[pos + i] := data[i];
    }
    n := pos + |data|;
  }

  method WriteString(buf: array<char>, pos: nat, s: string) returns (n: nat)
    requires pos + |s| + 2 < buf.Length
    modifies buf
    ensures n == pos + |Quoted(s)| && buf[..n] == old(buf[..pos]) + Quoted(s)
    ensures (forall k :: n <= k < buf.Length ==> buf[k] == old(buf[k]))
  {
    n := Write(buf, pos, "\"");
    n := Write(buf, n, s);
    n := Write(buf, n, "\"");
  }

  /** write_value, into a buffer that holds the text and one byte more. */
  method WriteValue(codec: Codec, s: Schema, v: Value, depth: nat, buf: array<char>, pos: nat) returns (n: nat)
    requires HasType(s, v) && depth <= 16 && Shallow(s, 16 - depth)
    requires pos + |Json(codec, s, v, depth)| < buf.Length
    modifies buf
    ensures n == pos + |Json(codec, s, v, depth)| && buf[..n] == old(buf[..pos]) + Json(codec, s, v, depth)
    ensures forall k :: n <= k < buf.Length ==> buf[k] == old(buf[k])
    decreases s, 1
  {
    match s
    case BoolS => n := Write(buf, pos, if v.b then "true" else "false");
    case NumberS => n := Write(buf, pos, codec.spell(v.n));
    case StringS => n := WriteString(buf, pos, v.s);
    case EnumS(table) => n := WriteString(buf, pos, NameOf(table, v.e));
    case ListS(_) => n := WriteSequence(codec, s, v, depth, buf, pos, JsonItems(codec, s, v, depth));
    case TupleS(_) => n := WriteSequence(codec, s, v, depth, buf, pos, JsonItems(codec, s, v, depth));
    case RecordS(_) => n := WriteRecord(codec, s, v, depth, buf, pos, JsonFields(codec, s, v, depth));
  }

  /** What is left to write after i items. */
  function ItemsLeft(items: seq<Item>, i: nat): (t: string)
    requires i <= |items|
  {
    if items == [] then "]"
    else if i == 0 then Items(items, 0, "")
    else [Separator(i - 1, |items|, ']')] + Behind(items, i - 1, "")
  }

  function Comma(i: nat): (t: string) {
    if i == 0 then "" else ", "
  }

  function ItemText(i: nat, text: string): (t: string) {
    Comma(i) + text
  }

  lemma ItemsLeftNext(items: seq<Item>, i: nat)
    requires i < |items| && items[i].before == (if i == 0 then "" else " ") && items[i].after == ""
    ensures ItemsLeft(items, i) == ItemText(i, items[i].text) + ItemsLeft(items, i + 1)
  {
    var item, left := items[i], ItemsLeft(items, i + 1);
    assert item.after + left == left;
    assert Items(items, i, "") == item.before + (item.text + left);
    if i > 0 {
      assert [','] + (" " + (item.text + left)) == ", " + (item.text + left);
      DropFront(", ", item.text, left);
    } else {
      assert "" + (item.text + left) == item.text + left && "" + item.text == item.text;
    }
  }

  /** What is written and what is left make the whole, one item on. */
  lemma ItemStep(items: seq<Item>, i: nat, done: string, whole: string)
    requires i < |items| && items[i].before == (if i == 0 then "" else " ") && items[i].after == ""
    requires done + ItemsLeft(items, i) == whole
    ensures (done + ItemText(i, items[i].text)) + ItemsLeft(items, i + 1) == whole
    ensures |ItemText(i, items[i].text)| + |ItemsLeft(items, i + 1)| == |ItemsLeft(items, i)|
  {
    ItemsLeftNext(items, i);
    Assoc(done, ItemText(i, items[i].text), ItemsLeft(items, i + 1));
  }

  lemma ItemAt(codec: Codec, s: Schema, v: Value, depth: nat, i: nat)
    requires Sequence(s, v) && i < |Contents(s, v)|
    ensures JsonItems(codec, s, v, depth)[i] ==
      Item(if i == 0 then "" else " ", Json(codec, ElementType(s, v, i), Contents(s, v)[i], depth + 1), "")
  {
  }

  lemma ElementShallow(s: Schema, v: Value, i: nat, d: nat)
    requires Sequence(s, v) && i < |Contents(s, v)| && Shallow(s, d)
    ensures 0 < d && Shallow(ElementType(s, v, i), d - 1)
  {
  }

  method WriteSequence(codec: Codec, s: Schema, v: Value, depth: nat, buf: array<char>, pos: nat,
                       ghost items: seq<Item>) returns (n: nat)
    requires Sequence(s, v) && depth <= 16 && Shallow(s, 16 - depth) && items == JsonItems(codec, s, v, depth)
    requires pos + |ListText(items, "")| < buf.Length
    modifies buf
    ensures n == pos + |ListText(items, "")| && buf[..n] == old(buf[..pos]) + ListText(items, "")
    ensures forall k :: n <= k < buf.Length ==> buf[k] == old(buf[k])
    decreases s, 0, 2
  {
    if |Contents(s, v)| == 0 {
      n := Write(buf, pos, "[]");
    } else {
      n := Write(buf, pos, "[");
      n := WriteItems(codec, s, v, depth, buf, n, items);
      Opened(old(buf[..pos]), items);
    }
  }

  lemma Opened(before: string, items: seq<Item>)
    requires items != []
    ensures (before + "[") + ItemsLeft(items, 0) == before + ListText(items, "")
  {
    DropFront(before, "[", ItemsLeft(items, 0));
  }

  /** All elements and the closing bracket. */
  method WriteItems(codec: Codec, s: Schema, v: Value, depth: nat, buf: array<char>, pos: nat, ghost items: seq<Item>)
    returns (n: nat)
    requires Sequence(s, v) && Contents(s, v) != [] && depth <= 16 && Shallow(s, 16 - depth)
    requires items == JsonItems(codec, s, v, depth) && pos + |ItemsLeft(items, 0)| < buf.Length
    modifies buf
    ensures n == pos + |ItemsLeft(items, 0)| && buf[..n] == old(buf[..pos]) + ItemsLeft(items, 0)
    ensures forall k :: n <= k < buf.Length ==> buf[k] == old(buf[k])
    decreases s, 0, 1
  {
    var vs := Contents(s, v);
    ghost var done, whole := buf[..pos], buf[..pos] + ItemsLeft(items, 0);
    n := pos;
    for i := 0 to |vs|
      invariant n <= |whole| && buf[..n] == done && done + ItemsLeft(items, i) == whole
      invariant n + |ItemsLeft(items, i)| == |whole|
      invariant forall k :: |whole| <= k < buf.Length ==> buf[k] == old(buf[k])
    {
      ItemAt(codec, s, v, depth, i);
      ElementShallow(s, v, i, 16 - depth);
      ItemStep(items, i, done, whole);
      n := WriteItem(codec, ElementType(s, v, i), vs[i], depth, buf, n, i);
      done := done + ItemText(i, items[i].text);
    }
    n := Write(buf, n, "]");
  }

  method WriteItem(codec: Codec, e: Schema, y: Value, depth: nat, buf: array<char>, pos: nat, i: nat) returns (n: nat)
    requires HasType(e, y) && depth < 16 && Shallow(e, 16 - depth - 1)
    requires pos + |ItemText(i, Json(codec, e, y, depth + 1))| < buf.Length
    modifies buf
    ensures n == pos + |ItemText(i, Json(codec, e, y, depth + 1))|
    ensures buf[..n] == old(buf[..pos]) + ItemText(i, Json(codec, e, y, depth + 1))
    ensures forall k :: n <= k < buf.Length ==> buf[k] == old(buf[k])
    decreases e, 2
  {
    ghost var was, text := buf[..pos], Json(codec, e, y, depth + 1);
    n := pos;
    if i != 0 { n := Write(buf, n, ", "); }
    ghost var led := buf[..n];
    n := WriteValue(codec, e, y, depth + 1, buf, n);
    Led(was, Comma(i), text, led);
  }

  lemma Led(was: string, lead: string, text: string, led: string)
    requires led == if lead == "" then was else was + lead
    ensures led + text == was + (lead + text)
  {
    if lead == "" { assert lead + text == text; } else { Assoc(was, lead, text); }
  }

  // ------------------------------------------------------------------ records

  const OPENING: string := "{\n\t\t\t\t\t\t\t\t\t\t\t\t\t\t\t\t"
  const BETWEEN: string := ",\n\t\t\t\t\t\t\t\t\t\t\t\t\t\t\t\t"
  const ENDING: string := "\n\t\t\t\t\t\t\t\t\t\t\t\t\t\t\t\t"

  /** The literals the indentation is cut from hold sixteen tabs. */
  lemma Indentation(depth: nat)
    requires 0 < depth <= 16
    ensures |OPENING| == |BETWEEN| == 18 && |ENDING| == 17
    ensures OPENING[..2 + depth] == "{\n" + Tabs(depth)
    ensures BETWEEN[..2 + depth] == ",\n" + Tabs(depth)
    ensures ENDING[..depth] == "\n" + Tabs(depth - 1)
  {
  }

  /** How the fields of a record at this depth are spaced. */
  predicate Indented(fields: seq<Field>, depth: nat) {
    forall j {:trigger fields[j]} :: 0 <= j < |fields| ==>
      && fields[j].before == "\n" + Tabs(depth + 1) && fields[j].colon == " " && fields[j].item.before == " "
      && fields[j].item.after == if j == |fields| - 1 then "\n" + Tabs(depth) else ""
  }

  /** What is written before the key of field j. */
  function Lead(j: nat, depth: nat): (t: string) {
    if j == 0 then "" else ",\n" + Tabs(depth + 1)
  }

  function FieldText(key: string, text: string): (t: string) {
    Quoted(key) + (" : " + text)
  }

  /** What is left to write after j fields. */
  function FieldsLeft(fields: seq<Field>, j: nat): (t: string)
    requires j <= |fields| && fields != []
  {
    if j == 0 then FromKey(fields, 0)
    else fields[j - 1].item.after + ([Separator(j - 1, |fields|, '}')] + BehindField(fields, j - 1, ""))
  }

  /** The fields from number j on without the blanks before it. */
  function FromKey(fields: seq<Field>, j: nat): (t: string)
    requires j < |fields|
  {
    Quoted(fields[j].key) + ((fields[j].colon + ":") +
      Padded(fields[j].item, Separator(j, |fields|, '}'), BehindField(fields, j, "")))
  }

  lemma FromKeyIs(fields: seq<Field>, j: nat)
    requires j < |fields|
    ensures Fields(fields, j, "") == fields[j].before + FromKey(fields, j)
  {
    var f, p := fields[j], Padded(fields[j].item, Separator(j, |fields|, '}'), BehindField(fields, j, ""));
    DropFront(Quoted(f.key), f.colon + ":", p);
    DropFront(f.before, Quoted(f.key) + (f.colon + ":"), p);
  }

  lemma FromKeyWritten(fields: seq<Field>, depth: nat, j: nat)
    requires j < |fields| && Indented(fields, depth)
    ensures FromKey(fields, j) == FieldText(fields[j].key, fields[j].item.text) + FieldsLeft(fields, j + 1)
  {
    var f, left := fields[j], FieldsLeft(fields, j + 1);
    var text := f.item.text;
    calc {
      FromKey(fields, j);
      Quoted(f.key) + ((" " + ":") + (" " + (text + left)));
      { DropFront(" :", " ", text + left); DropFront(" :" + " ", text, left); }
      Quoted(f.key) + ((" : " + text) + left);
      { DropFront(Quoted(f.key), " : " + text, left); }
      FieldText(f.key, text) + left;
    }
  }

  lemma LeadIn(lead: string, from: string)
    ensures "" + ([','] + (("\n" + lead) + from)) == (",\n" + lead) + from
    ensures "" + from == from
  {
    DropFront(",", "\n", lead);
    DropFront(",", "\n" + lead, from);
  }

  lemma FieldsLeftNext(fields: seq<Field>, depth: nat, j: nat)
    requires j < |fields| && Indented(fields, depth)
    ensures FieldsLeft(fields, j) ==
      Lead(j, depth) + (FieldText(fields[j].key, fields[j].item.text) + FieldsLeft(fields, j + 1))
  {
    FromKeyWritten(fields, depth, j);
    LeadIn(Tabs(depth + 1), FromKey(fields, j));
    if j > 0 { FromKeyIs(fields, j); }
  }

  /** What is written before field j, and the field. */
  function MemberText(j: nat, depth: nat, key: string, text: string): (t: string) {
    Lead(j, depth) + FieldText(key, text)
  }

  /** What is written and what is left make the whole, one field on. */
  lemma FieldStep(fields: seq<Field>, depth: nat, j: nat, done: string, whole: string)
    requires j < |fields| && Indented(fields, depth) && done + FieldsLeft(fields, j) == whole
    ensures var t := MemberText(j, depth, fields[j].key, fields[j].item.text);
      && (done + t) + FieldsLeft(fields, j + 1) == whole
      && |t| + |FieldsLeft(fields, j + 1)| == |FieldsLeft(fields, j)|
  {
    var lead, text, left := Lead(j, depth), FieldText(fields[j].key, fields[j].item.text), FieldsLeft(fields, j + 1);
    FieldsLeftNext(fields, depth, j);
    Assoc(lead, text, left);
    Assoc(done, lead + text, left);
  }

  method WriteLead(j: nat, depth: nat, buf: array<char>, pos: nat) returns (n: nat)
    requires depth < 16 && pos + |Lead(j, depth)| < buf.Length
    modifies buf
    ensures n == pos + |Lead(j, depth)|
    ensures buf[..n] == if Lead(j, depth) == "" then old(buf[..pos]) else old(buf[..pos]) + Lead(j, depth)
    ensures forall k :: n <= k < buf.Length ==> buf[k] == old(buf[k])
  {
    n := pos;
    if j != 0 {
      Indentation(depth + 1);
      n := Write(buf, n, BETWEEN[..2 + (depth + 1)]);
    }
  }

  /** What is written of a member before its value. */
  function KeyLead(j: nat, depth: nat, key: string): (t: string) {
    Lead(j, depth) + (Quoted(key) + " : ")
  }

  method WriteKey(j: nat, depth: nat, key: string, buf: array<char>, pos: nat) returns (n: nat)
    requires depth < 16 && pos + |KeyLead(j, depth, key)| < buf.Length
    modifies buf
    ensures n == pos + |KeyLead(j, depth, key)| && buf[..n] == old(buf[..pos]) + KeyLead(j, depth, key)
    ensures forall k :: n <= k < buf.Length ==> buf[k] == old(buf[k])
  {
    ghost var was := buf[..pos];
    n := WriteLead(j, depth, buf, pos);
    ghost var led := buf[..n];
    n := WriteString(buf, n, key);
    n := Write(buf, n, " : ");
    Assoc(led, Quoted(key), " : ");
    Led(was, Lead(j, depth), Quoted(key) + " : ", led);
  }

  method WriteField(codec: Codec, e: Schema, key: string, y: Value, depth: nat, buf: array<char>, pos: nat, j: nat)
    returns (n: nat)
    requires HasType(e, y) && depth < 16 && Shallow(e, 16 - depth - 1)
    requires pos + |MemberText(j, depth, key, Json(codec, e, y, depth + 1))| < buf.Length
    modifies buf
    ensures n == pos + |MemberText(j, depth, key, Json(codec, e, y, depth + 1))|
    ensures buf[..n] == old(buf[..pos]) + MemberText(j, depth, key, Json(codec, e, y, depth + 1))
    ensures forall k :: n <= k < buf.Length ==> buf[k] == old(buf[k])
    decreases e, 2
  {
    FieldJoined(buf[..pos], j, depth, key, Json(codec, e, y, depth + 1));
    n := WriteKey(j, depth, key, buf, pos);
    n := WriteValue(codec, e, y, depth + 1, buf, n);
  }

  lemma FieldJoined(was: string, j: nat, depth: nat, key: string, text: string)
    ensures (was + KeyLead(j, depth, key)) + text == was + MemberText(j, depth, key, text)
    ensures |KeyLead(j, depth, key)| + |text| == |MemberText(j, depth, key, text)|
  {
    Assoc(Quoted(key), " : ", text);
    Assoc(Lead(j, depth), Quoted(key) + " : ", text);
    Assoc(was, KeyLead(j, depth, key), text);
  }

  lemma FieldAt(codec: Codec, s: Schema, v: Value, depth: nat, j: nat)
    requires s.RecordS? && HasType(s, v) && j < |s.members|
    ensures var f := JsonFields(codec, s, v, depth)[j];
      f.key == s.members[j].key && f.item.text == Json(codec, s.members[j].schema, v.record[j], depth + 1)
    ensures HasType(s.members[j].schema, v.record[j])
  {
  }

  lemma FieldsIndented(codec: Codec, s: Schema, v: Value, depth: nat)
    requires s.RecordS? && HasType(s, v)
    ensures Indented(JsonFields(codec, s, v, depth), depth)
  {
  }

  /** All members, the last line's indentation and the closing brace. */
  method WriteFields(codec: Codec, s: Schema, v: Value, depth: nat, buf: array<char>, pos: nat,
                     ghost fields: seq<Field>)
    returns (n: nat)
    requires s.RecordS? && HasType(s, v) && s.members != [] && depth <= 16 && Shallow(s, 16 - depth)
    requires fields == JsonFields(codec, s, v, depth) && pos + |FieldsLeft(fields, 0)| < buf.Length
    modifies buf
    ensures n == pos + |FieldsLeft(fields, 0)| && buf[..n] == old(buf[..pos]) + FieldsLeft(fields, 0)
    ensures forall k :: n <= k < buf.Length ==> buf[k] == old(buf[k])
    decreases s, 0, 1
  {
    ghost var done, whole := buf[..pos], buf[..pos] + FieldsLeft(fields, 0);
    FieldsIndented(codec, s, v, depth);
    n := pos;
    for j := 0 to |s.members|
      invariant n <= |whole| && buf[..n] == done && done + FieldsLeft(fields, j) == whole
      invariant n + |FieldsLeft(fields, j)| == |whole|
      invariant forall k :: |whole| <= k < buf.Length ==> buf[k] == old(buf[k])
    {
      FieldAt(codec, s, v, depth, j);
      FieldStep(fields, depth, j, done, whole);
      n := WriteField(codec, s.members[j].schema, s.members[j].key, v.record[j], depth, buf, n, j);
      done := done + MemberText(j, depth, fields[j].key, fields[j].item.text);
    }
    AllWritten(fields, depth);
    n := WriteEnding(depth, buf, n);
  }

  method WriteEnding(depth: nat, buf: array<char>, pos: nat) returns (n: nat)
    requires depth < 16 && pos + depth + 2 < buf.Length
    modifies buf
    ensures n == pos + depth + 2 && buf[..n] == old(buf[..pos]) + (("\n" + Tabs(depth)) + "}")
    ensures forall k :: n <= k < buf.Length ==> buf[k] == old(buf[k])
  {
    Indentation(depth + 1);
    n := Write(buf, pos, ENDING[..depth + 1]);
    n := Write(buf, n, "}");
    DropFront(old(buf[..pos]), "\n" + Tabs(depth), "}");
  }

  lemma AllWritten(fields: seq<Field>, depth: nat)
    requires fields != [] && Indented(fields, depth)
    ensures FieldsLeft(fields, |fields|) == ("\n" + Tabs(depth)) + "}"
  {
    assert FieldsLeft(fields, |fields|) == ("\n" + Tabs(depth)) + (['}'] + "");
  }

  method WriteRecord(codec: Codec, s: Schema, v: Value, depth: nat, buf: array<char>, pos: nat,
                     ghost fields: seq<Field>) returns (n: nat)
    requires s.RecordS? && HasType(s, v) && depth <= 16 && Shallow(s, 16 - depth)
    requires fields == JsonFields(codec, s, v, depth)
    requires pos + |RecordText(fields)| < buf.Length
    modifies buf
    ensures n == pos + |RecordText(fields)| && buf[..n] == old(buf[..pos]) + RecordText(fields)
    ensures forall k :: n <= k < buf.Length ==> buf[k] == old(buf[k])
    decreases s, 0, 2
  {
    if |s.members| == 0 {
      n := Write(buf, pos, "{}");
    } else {
      Indentation(depth + 1);
      RecordOpened(old(buf[..pos]), fields, depth);
      n := Write(buf, pos, OPENING[..2 + (depth + 1)]);
      n := WriteFields(codec, s, v, depth, buf, n, fields);
    }
  }

  lemma RecordOpened(before: string, fields: seq<Field>, depth: nat)
    requires fields != [] && Indented(fields, depth)
    ensures (before + ("{\n" + Tabs(depth + 1))) + FieldsLeft(fields, 0) == before + RecordText(fields)
    ensures |RecordText(fields)| == |"{\n" + Tabs(depth + 1)| + |FieldsLeft(fields, 0)|
  {
    FromKeyIs(fields, 0);
    DropFront("{", "\n", Tabs(depth + 1));
    DropFront("{", "\n" + Tabs(depth + 1), FromKey(fields, 0));
    DropFront(before, "{\n" + Tabs(depth + 1), FromKey(fields, 0));
  }

  /** serialize_json into a buffer that is large enough: the number of bytes written. */
  method WriteJson(codec: Codec, s: Schema, v: Value, buf: array<char>) returns (n: nat)
    requires HasType(s, v) && Shallow(s, 16) && |SerializeJson(codec, s, v)| <= buf.Length
    modifies buf
    ensures n == |SerializeJson(codec, s, v)| && buf[..n] == SerializeJson(codec, s, v)
    ensures forall k :: n <= k < buf.Length ==> buf[k] == old(buf[k])
    ensures Lawful(codec) && Readable(s, v) ==> StructureJson(codec, s, buf[..n], Default(s)) == Some(v)
  {
    n := WriteValue(codec, s, v, 0, buf, 0);
    ghost var was := buf[..n];
    assert was == Json(codec, s, v, 0);
    buf[n] := '\n';
    n := n + 1;
    assert buf[..n] == was + "\n";
    if Lawful(codec) && Readable(s, v) { JsonRoundTrip(codec, s, Default(s), v); }
  }
}
