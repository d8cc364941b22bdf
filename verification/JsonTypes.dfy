/** What is written and read: the C++ types that have a serialization become
    schemas, and their objects values. */
module JsonTypes {

  import opened Wrappers
  import opened LookupTables

  datatype Member = Member(key: string, schema: Schema)

  datatype Schema =
    | BoolS
    | NumberS
    | StringS
    | EnumS(table: Enumeration)
    | ListS(elem: Schema)
    | TupleS(elems: seq<Schema>)
    | RecordS(members: seq<Member>)

  /** Numbers stand for themselves; how they are spelled is the codec's business. */
  datatype Value =
    | BoolV(b: bool)
    | NumberV(n: int)
    | StringV(s: string)
    | EnumV(e: int)
    | ListV(list: seq<Value>)
    | TupleV(tuple: seq<Value>)
    | RecordV(record: seq<Value>)

  function KeysOf(members: seq<Member>): (keys: seq<string>)
    ensures |keys| == |members|
    ensures forall i :: 0 <= i < |members| ==> keys[i] == members[i].key
  {
    seq(|members|, i requires 0 <= i < |members| => members[i].key)
  }

  /** A default-constructed object. */
  function Default(s: Schema): (v: Value)
    decreases s
  {
    match s
    case BoolS => BoolV(false)
    case NumberS => NumberV(0)
    case StringS => StringV("")
    case EnumS(_) => EnumV(0)
    case ListS(_) => ListV([])
    case TupleS(es) => TupleV(seq(|es|, i requires 0 <= i < |es| => Default(es[i])))
    case RecordS(ms) => RecordV(seq(|ms|, i requires 0 <= i < |ms| => Default(ms[i].schema)))
  }

  // What an object of a list, tuple or record type consists of.  In C++ no other
  // object can be passed; here it would count as a default one.

  function ListOf(x: Value): (vs: seq<Value>) {
    if x.ListV? then x.list else []
  }

  function TupleOf(es: seq<Schema>, x: Value): (vs: seq<Value>)
    ensures |vs| == |es|
  {
    if x.TupleV? && |x.tuple| == |es| then x.tuple else seq(|es|, i requires 0 <= i < |es| => Default(es[i]))
  }

  function RecordOf(ms: seq<Member>, x: Value): (vs: seq<Value>)
    ensures |vs| == |ms|
  {
    if x.RecordV? && |x.record| == |ms| then x.record else seq(|ms|, i requires 0 <= i < |ms| => Default(ms[i].schema))
  }

  predicate NumberByte(c: char) {
    '0' <= c <= '9' || c == '+' || c == '-' || c == '.' || c == 'e' || c == 'E'
  }

  /** fio::to_chars and fio::from_chars: parse gives the number at the front of the
      text and how many bytes it takes. */
  datatype Codec = Codec(spell: int -> string, parse: string -> Option<(int, nat)>)

  /** No number goes on here. */
  predicate NumberEnds(rest: string) {
    rest == [] || !NumberByte(rest[0])
  }

  /** The whole of t is a text of the number n. */
  predicate NumberText(codec: Codec, t: string, n: int) {
    t != [] && codec.parse(t) == Some((n, |t|))
  }

  /** What is parsed at the front of t stands for the same number alone. */
  predicate FrontStands(codec: Codec, t: string) {
    var r := codec.parse(t);
    r.Some? && 0 < r.value.1 ==>
      r.value.1 <= |t| && NumberByte(t[0]) && NumberText(codec, t[..r.value.1], r.value.0)
  }

  /** A number's text stands for the same number in front of something else. */
  predicate EndStands(codec: Codec, t: string, n: int, rest: string) {
    NumberText(codec, t, n) && NumberEnds(rest) ==> codec.parse(t + rest) == Some((n, |t|))
  }

  /** A printed number is a text of itself.  Parsing takes the number at the front,
      whatever else follows, and neither takes nor looks at a blank. */
  ghost predicate Lawful(codec: Codec) {
    && (forall n :: NumberText(codec, codec.spell(n), n))
    && (forall t :: FrontStands(codec, t))
    && (forall t, n, rest :: EndStands(codec, t, n, rest))
    && (forall t, c {:trigger codec.parse(t + [c])} :: c <= ' ' ==> codec.parse(t + [c]) == codec.parse(t))
    && (forall t {:trigger codec.parse(t)} :: codec.parse(t).Some? ==> codec.parse(t).value.1 <= |t|)
  }

  /** A printed number reads back as itself and takes exactly the bytes printed. */
  lemma SpelledParses(codec: Codec, n: int, rest: string)
    requires Lawful(codec) && NumberEnds(rest)
    ensures codec.spell(n) != [] && NumberByte(codec.spell(n)[0])
    ensures codec.parse(codec.spell(n) + rest) == Some((n, |codec.spell(n)|))
  {
    assert NumberText(codec, codec.spell(n), n) && FrontStands(codec, codec.spell(n));
    assert EndStands(codec, codec.spell(n), n, rest);
  }

  predicate Blank(ws: string) {
    forall i :: 0 <= i < |ws| ==> ws[i] <= ' '
  }
}
