/** The texts of a JSON value. */
module JsonText {

  import opened Wrappers
  import opened LookupTables
  import opened JsonTypes
  import opened JsonReader

  // Which bytes stand between the tokens and in which order members come is free; the
  // reader gives the same value for all of them.

  /** The text of a value with the blanks around it. */
  datatype Item = Item(before: string, text: string, after: string)

  /** A member: its key, the blanks before the colon, and its value. */
  datatype Field = Field(before: string, key: string, colon: string, item: Item)

  function Separator(i: nat, n: nat, close: char): (c: char) {
    if i + 1 == n then close else ','
  }

  /** An item, the comma or bracket behind it, and what follows. */
  function Padded(item: Item, c: char, w: string): (t: string) {
    item.before + (item.text + (item.after + ([c] + w)))
  }

  /** The items from number i on, up to and with the closing bracket, and `rest`. */
  function Items(items: seq<Item>, i: nat, rest: string): (t: string)
    requires i < |items|
    decreases |items| - i
  {
    Padded(items[i], Separator(i, |items|, ']'), Behind(items, i, rest))
  }

  /** What stands after item i and its comma or bracket. */
  function Behind(items: seq<Item>, i: nat, rest: string): (t: string)
    requires i < |items|
    decreases |items| - i, 0
  {
    if i == |items| - 1 then rest else Items(items, i + 1, rest)
  }

  function ListText(items: seq<Item>, inside: string): (t: string) {
    "[" + (if items == [] then inside + "]" else Items(items, 0, ""))
  }

  function KeyText(f: Field): (t: string) {
    f.before + (Quoted(f.key) + (f.colon + ":"))
  }

  /** The fields from number j on, up to and with the closing brace, and `rest`. */
  function Fields(fields: seq<Field>, j: nat, rest: string): (t: string)
    requires j < |fields|
    decreases |fields| - j
  {
    KeyText(fields[j]) + Padded(fields[j].item, Separator(j, |fields|, '}'), BehindField(fields, j, rest))
  }

  function BehindField(fields: seq<Field>, j: nat, rest: string): (t: string)
    requires j < |fields|
    decreases |fields| - j, 0
  {
    if j == |fields| - 1 then rest else Fields(fields, j + 1, rest)
  }

  function RecordText(fields: seq<Field>): (t: string) {
    "{" + (if fields == [] then "}" else Fields(fields, 0, ""))
  }

  predicate Spaced(item: Item) {
    Blank(item.before) && Blank(item.after)
  }

  ghost predicate FieldSpaced(f: Field) {
    Blank(f.before) && Blank(f.colon) && Spaced(f.item) && Closed(f.key)
  }

  /** The member is among the first n fields. */
  ghost predicate Named(fields: seq<Field>, n: nat, key: string)
    requires n <= |fields|
  {
    exists k :: 0 <= k < n && fields[k].key == key
  }

  /** The fields name members of the record, none of them twice. */
  ghost predicate NamesOnce(fields: seq<Field>, keys: seq<string>) {
    && Distinct(keys)
    && (forall j, k :: 0 <= j < k < |fields| ==> fields[j].key != fields[k].key)
    && (forall j {:trigger Find(keys, fields[j].key)} :: 0 <= j < |fields| ==> Find(keys, fields[j].key).Some?)
  }

  /** t is a text of type s that makes v of x: a list grows by the elements named, a
      record changes in the members named, one after the other, and anything else is
      replaced. */
  ghost predicate Spells(codec: Codec, s: Schema, x: Value, v: Value, t: string)
    decreases s, 2
  {
    match s
    case BoolS => v.BoolV? && t == if v.b then "true" else "false"
    case NumberS => v.NumberV? && NumberText(codec, t, v.n)
    case StringS => v.StringV? && Closed(v.s) && t == Quoted(v.s)
    case EnumS(table) =>
      v.EnumV? && exists name :: Closed(name) && ValueOf(table, name) == Some(v.e) && t == Quoted(name)
    case ListS(e) =>
      v.ListV? && exists items, inside ::
        Blank(inside) && t == ListText(items, inside) && SpellsList(codec, s, ListOf(x), v.list, items)
    case TupleS(es) =>
      v.TupleV? && exists items :: t == ListText(items, "") && SpellsTuple(codec, s, TupleOf(es, x), v.tuple, items)
    case RecordS(ms) =>
      v.RecordV? && exists fields, parts ::
        t == RecordText(fields) && SpellsRecord(codec, s, RecordOf(ms, x), v.record, fields, parts)
  }

  ghost predicate SpellsList(codec: Codec, s: Schema, list: seq<Value>, vs: seq<Value>, items: seq<Item>)
    requires s.ListS?
    decreases s, 1
  {
    list <= vs && |items| == |vs| - |list| &&
    forall i :: 0 <= i < |items| ==>
      Spaced(items[i]) && Spells(codec, s.elem, Default(s.elem), vs[|list| + i], items[i].text)
  }

  ghost predicate SpellsTuple(codec: Codec, s: Schema, xs: seq<Value>, vs: seq<Value>, items: seq<Item>)
    requires s.TupleS?
    decreases s, 1
  {
    |items| == |vs| == |xs| == |s.elems| && items != [] &&
    forall i :: 0 <= i < |items| ==> Spaced(items[i]) && Spells(codec, s.elems[i], xs[i], vs[i], items[i].text)
  }

  /** The fields one after the other; `parts` is what the members hold between them. */
  ghost predicate SpellsRecord(codec: Codec, s: Schema, xs: seq<Value>, vs: seq<Value>, fields: seq<Field>,
                               parts: seq<seq<Value>>)
    requires s.RecordS?
    decreases s, 1
  {
    && fields != [] && |parts| == |fields| + 1 && parts[0] == xs && parts[|fields|] == vs
    && forall j :: 0 <= j < |fields| ==>
         FieldSpaced(fields[j]) && Assigns(codec, s, fields[j], parts[j], parts[j + 1])
  }

  /** The field changes one member. */
  ghost predicate Assigns(codec: Codec, s: Schema, f: Field, now: seq<Value>, next: seq<Value>)
    requires s.RecordS?
    decreases s, 0
  {
    |now| == |next| == |s.members| &&
    match Find(KeysOf(s.members), f.key)
    case Some(i) => next == now[i := next[i]] && Spells(codec, s.members[i].schema, now[i], next[i], f.item.text)
    case None => false
  }

  // ------------------------------------------------------------------ tokens

  lemma SkipsBlank(before: string, t: string)
    requires Blank(before) && t != [] && t[0] > ' '
    ensures SkipWhitespace(before + t) == Ok(|before|, ()) && (before + t)[|before|..] == t
  {
    var u := before + t;
    assert u[|before|] > ' ' && forall k :: 0 <= k < |before| ==> u[k] <= ' ';
    FindTokenFinds(u, 0, |before|);
  }

  lemma ReadsSymbol(before: string, c: char, rest: string)
    requires Blank(before) && c > ' '
    ensures ReadSymbol(before + ([c] + rest)) == Ok(|before| + 1, c)
    ensures (before + ([c] + rest))[|before| + 1..] == rest
  {
    SkipsBlank(before, [c] + rest);
  }

  /** Every quote up to the end is escaped and the end is none. */
  ghost predicate ClosesAt(t: string, i: nat, n: nat)
    requires 0 < i <= n < |t| && t[0] == '"'
  {
    (forall k :: i <= k < n && t[k] == '"' ==> QuoteAt(t, k) == Escaped) && QuoteAt(t, n) == Closing
  }

  lemma {:induction false} ClosesExactly(t: string, i: nat, n: nat)
    requires 0 < i <= n < |t| && t[0] == '"' && t[n] == '"'
    ensures ReadStringFrom(t, i) == Ok(n, t[1..n]) <==> ClosesAt(t, i, n)
    decreases |t| - i
  {
    var j := FindQuote(t, i);
    FindQuoteLaw(t, i);
    if j < n && QuoteAt(t, j) == Escaped { ClosesExactly(t, j + 1, n); }
  }

  /** A quoted string reads back as itself exactly when it is closed. */
  lemma ReadsExactly(s: string, rest: string)
    ensures ReadString(Quoted(s) + rest) == Ok(|s| + 1, s) <==> Closed(s)
  {
    var q, t, n := Quoted(s), Quoted(s) + rest, |s| + 1;
    assert t[1..n] == s;
    ClosesExactly(t, 1, n);
    forall k | 1 <= k <= n ensures t[k] == q[k] && QuoteAt(t, k) == QuoteAt(q, k) {
    }
  }

  lemma ReadsString(s: string, rest: string)
    requires Closed(s)
    ensures ReadString(Quoted(s) + rest) == Ok(|s| + 1, s)
  {
    ReadsExactly(s, rest);
  }

  /** Strings free of quotes and backslashes are. */
  lemma CleanIsClosed(s: string)
    requires forall i :: 0 <= i < |s| ==> s[i] != '"' && s[i] != '\\'
    ensures Closed(s)
  {
    assert Quoted(s)[|s|] != '\\';
  }

  lemma KeyStep(keys: seq<string>, t: string, n: nat, u: string, k: nat, key: string, w: string, m: nat)
    requires SkipWhitespace(t) == Ok(n, ()) && u == t[n..] && u != [] && ReadString(u) == Ok(k, key)
    requires Find(keys, key).Some? && n + k + 1 <= |t| && w == t[n + k + 1..] && ReadSymbol(w) == Ok(m, ':')
    ensures ReadKey(keys, t) == Ok(n + k + 1 + m, Find(keys, key).value)
  {
  }

  /** Taking the front off a text of two parts. */
  lemma DropFront(a: string, b: string, c: string)
    ensures (a + (b + c))[|a|..] == b + c
    ensures (a + (b + c))[|a| + |b|..] == c
    ensures (a + b) + c == a + (b + c)
  {
  }

  lemma KeyTextRest(f: Field, rest: string)
    ensures KeyText(f) + rest == f.before + (Quoted(f.key) + (f.colon + ([':'] + rest)))
    ensures |KeyText(f)| == |f.before| + |f.key| + 2 + |f.colon| + 1
    ensures (KeyText(f) + rest)[|KeyText(f)|..] == rest
  {
    DropFront(f.colon, ":", rest);
    DropFront(Quoted(f.key), f.colon + ":", rest);
    DropFront(f.before, Quoted(f.key) + (f.colon + ":"), rest);
  }

  lemma KeyTokens(f: Field, rest: string)
    requires FieldSpaced(f)
    ensures var t, tail := KeyText(f) + rest, f.colon + ([':'] + rest);
      && SkipWhitespace(t) == Ok(|f.before|, ())
      && |f.before| + |f.key| + 2 <= |t|
      && t[|f.before|..] == Quoted(f.key) + tail
      && t[|f.before| + |f.key| + 2..] == tail
  {
    var tail := f.colon + ([':'] + rest);
    KeyTextRest(f, rest);
    DropFront(f.before, Quoted(f.key), tail);
    SkipsBlank(f.before, Quoted(f.key) + tail);
  }

  lemma KeyIsRead(keys: seq<string>, t: string, n: nat, key: string, colon: string, rest: string)
    requires Closed(key) && Blank(colon) && Find(keys, key).Some?
    requires SkipWhitespace(t) == Ok(n, ()) && n + |key| + 2 <= |t|
    requires t[n..] == Quoted(key) + (colon + ([':'] + rest)) && t[n + |key| + 2..] == colon + ([':'] + rest)
    ensures ReadKey(keys, t) == Ok(n + |key| + |colon| + 3, Find(keys, key).value)
  {
    var tail := colon + ([':'] + rest);
    ReadsString(key, tail);
    ReadsSymbol(colon, ':', rest);
    KeyStep(keys, t, n, t[n..], |key| + 1, key, t[n + |key| + 2..], |colon| + 1);
  }

  lemma ReadsKey(keys: seq<string>, f: Field, rest: string)
    requires FieldSpaced(f) && Find(keys, f.key).Some?
    ensures ReadKey(keys, KeyText(f) + rest) == Ok(|KeyText(f)|, Find(keys, f.key).value)
  {
    KeyTokens(f, rest);
    KeyIsRead(keys, KeyText(f) + rest, |f.before|, f.key, f.colon, rest);
  }

  // --------------------------------------------- one turn of each reading loop

  lemma PaddedParts(item: Item, c: char, w: string)
    ensures var t, n := Padded(item, c, w), |item.before| + |item.text|;
      && n + |item.after| + 1 + |w| == |t|
      && t[n..] == item.after + ([c] + w)
      && t[n + |item.after| + 1..] == w
  {
    DropFront(item.before, item.text, item.after + ([c] + w));
    assert item.after + ([c] + w) == (item.after + [c]) + w;
  }

  lemma PaddedRest(item: Item, c: char, w: string, rest: string)
    ensures Padded(item, c, w) + rest == Padded(item, c, w + rest)
  {
    DropFront([c], w, rest);
    DropFront(item.after, [c] + w, rest);
    DropFront(item.text, item.after + ([c] + w), rest);
    DropFront(item.before, item.text + (item.after + ([c] + w)), rest);
  }

  predicate Punctuation(c: char) {
    c == ',' || c == ']' || c == '}'
  }

  /** Behind a value come the blanks and the symbol. */
  lemma SymbolAfter(item: Item, c: char, w: string)
    requires Blank(item.after) && Punctuation(c) && item.text != []
    ensures var t, n := Padded(item, c, w), |item.before| + |item.text|;
      0 < n < |t| && ReadSymbol(t[n..]) == Ok(|item.after| + 1, c) && n + |item.after| + 1 == |t| - |w| &&
        t[|t| - |w|..] == w
  {
    PaddedParts(item, c, w);
    ReadsSymbol(item.after, c, w);
  }

  lemma SymbolBehind(front: string, item: Item, c: char, w: string)
    requires Blank(item.after) && Punctuation(c) && item.text != []
    ensures var t, n := front + Padded(item, c, w), |front| + |item.before| + |item.text|;
      0 < n < |t| && ReadSymbol(t[n..]) == Ok(|item.after| + 1, c) && n + |item.after| + 1 == |t| - |w| &&
        t[|t| - |w|..] == w
  {
    SymbolAfter(item, c, w);
    BehindFront(front, Padded(item, c, w), |item.before| + |item.text|);
    BehindFront(front, Padded(item, c, w), |Padded(item, c, w)| - |w|);
  }

  lemma FrontGone(front: string, t: string)
    ensures (front + t)[|front|..] == t
  {
  }

  lemma BehindFront(front: string, t: string, n: nat)
    requires n <= |t|
    ensures (front + t)[|front| + n..] == t[n..]
  {
  }

  lemma AfterPartStep(strict: bool, t: string, n: nat, m: nat, c: char, close: char)
    requires 0 < n < |t| && ReadSymbol(t[n..]) == Ok(m, c) && (c == ',' || c == close)
    ensures AfterPart(strict, t, n, close) == Ok(n + m, c == ',')
  {
  }

  lemma AfterPartReads(strict: bool, front: string, item: Item, c: char, w: string, close: char)
    requires Blank(item.after) && Punctuation(c) && (c == ',' || c == close) && item.text != []
    ensures var t, n := front + Padded(item, c, w), |front| + |item.before| + |item.text|;
      && |w| < |t| && t[|t| - |w|..] == w
      && 0 < n < |t| && AfterPart(strict, t, n, close) == Ok(|t| - |w|, c == ',')
  {
    SymbolBehind(front, item, c, w);
    AfterPartStep(strict, front + Padded(item, c, w), |front| + |item.before| + |item.text|, |item.after| + 1, c,
      close);
  }

  lemma AfterItemReads(strict: bool, item: Item, c: char, w: string)
    requires Blank(item.after) && (c == ',' || c == ']') && item.text != []
    ensures var t, n := Padded(item, c, w), |item.before| + |item.text|;
      && |w| < |t| && t[|t| - |w|..] == w
      && 0 < n < |t| && AfterPart(strict, t, n, ']') == Ok(|t| - |w|, c == ',')
  {
    SymbolAfter(item, c, w);
    AfterPartStep(strict, Padded(item, c, w), |item.before| + |item.text|, |item.after| + 1, c, ']');
  }

  lemma AfterElementStep(strict: bool, t: string, n: nat, m: nat, c: char, last: bool)
    requires 0 < n < |t| && ReadSymbol(t[n..]) == Ok(m, c) && c == if last then ']' else ','
    ensures AfterElement(strict, t, n, last) == Ok(n + m, !last)
  {
  }

  lemma AfterElementReads(strict: bool, item: Item, c: char, w: string, last: bool)
    requires Blank(item.after) && c == (if last then ']' else ',') && item.text != []
    ensures var t, n := Padded(item, c, w), |item.before| + |item.text|;
      && |w| < |t| && t[|t| - |w|..] == w
      && 0 < n < |t| && AfterElement(strict, t, n, last) == Ok(|t| - |w|, !last)
  {
    SymbolAfter(item, c, w);
    AfterElementStep(strict, Padded(item, c, w), |item.before| + |item.text|, |item.after| + 1, c, last);
  }

  /** One turn of a loop takes the text from t to w. */
  ghost predicate Link(turn: (nat, string, seq<Value>) -> Result<Turn>, i: nat, t: string, parts: seq<Value>, w: string,
                       parts': seq<Value>, more: bool) {
    |w| < |t| && t[|t| - |w|..] == w && turn(i, t, parts) == Ok(|t| - |w|, Turn(parts', more))
  }

  /** All turns of a loop, the texts and the parts between them being known. */
  ghost predicate Chain(turn: (nat, string, seq<Value>) -> Result<Turn>, n: nat, texts: seq<string>,
                        parts: seq<seq<Value>>) {
    |texts| == n + 1 == |parts| &&
    forall i :: 0 <= i < n ==> Link(turn, i, texts[i], parts[i], texts[i + 1], parts[i + 1], i + 1 < n)
  }

  lemma {:induction false} ChainReads(turn: (nat, string, seq<Value>) -> Result<Turn>, n: nat, texts: seq<string>,
                                      parts: seq<seq<Value>>, i: nat)
    requires Moves(turn) && Chain(turn, n, texts, parts) && i < n
    ensures |texts[n]| <= |texts[i]| && Turns(turn, i, texts[i], parts[i]) == Ok(|texts[i]| - |texts[n]|, parts[n])
    decreases n - i
  {
    assert Link(turn, i, texts[i], parts[i], texts[i + 1], parts[i + 1], i + 1 < n);
    if i + 1 < n { ChainReads(turn, n, texts, parts, i + 1); }
  }

  /** A number's text is not followed by more of a number. */
  predicate Follows(s: Schema, rest: string) {
    s.NumberS? ==> NumberEnds(rest)
  }

  lemma PunctuationFollows(s: Schema, after: string, c: char, w: string)
    requires Blank(after) && Punctuation(c)
    ensures Follows(s, after + ([c] + w))
  {
  }

  // ------------------------------------------------------------------ values

  lemma SpellsStarts(codec: Codec, s: Schema, x: Value, v: Value, t: string)
    requires Lawful(codec) && Spells(codec, s, x, v, t)
    ensures t != [] && t[0] > ' ' && t[0] != ']'
  {
    if s.NumberS? {
      assert FrontStands(codec, t);
    }
  }

  /** Read into x, a text makes of it what it says and is consumed exactly, whatever the
      blanks and the order of members. */
  lemma {:induction false} ReadsValue(strict: bool, codec: Codec, s: Schema, x: Value, v: Value, before: string,
                                      t: string, rest: string)
    requires Lawful(codec) && Spells(codec, s, x, v, t) && Blank(before) && Follows(s, rest)
    ensures ReadValue(strict, codec, s, before + (t + rest), x) == Ok(|before| + |t|, v)
    decreases s, 3
  {
    SpellsStarts(codec, s, x, v, t);
    ReadsToken(strict, codec, s, x, v, t, rest);
    TextBehind(strict, codec, s, x, v, before, t, rest);
  }

  lemma TextBehind(strict: bool, codec: Codec, s: Schema, x: Value, v: Value, before: string, t: string, rest: string)
    requires Blank(before) && t != [] && t[0] > ' ' && ReadToken(strict, codec, s, t + rest, x) == Ok(|t|, v)
    ensures ReadValue(strict, codec, s, before + (t + rest), x) == Ok(|before| + |t|, v)
  {
    assert (t + rest)[0] == t[0];
    TokenBehind(strict, codec, s, x, before, t + rest, Ok(|t|, v));
  }

  lemma TokenBehind(strict: bool, codec: Codec, s: Schema, x: Value, before: string, w: string, r: Result<Value>)
    requires Blank(before) && w != [] && w[0] > ' ' && ReadToken(strict, codec, s, w, x) == r
    ensures ReadValue(strict, codec, s, before + w, x) == Advance(|before|, r)
  {
    SkipsBlank(before, w);
    ValueUnfolds(strict, codec, s, before + w, x, |before|, w);
  }

  lemma Nothing(t: string)
    ensures "" + t == t && t + "" == t
  {
  }

  /** The same at the front of a text. */
  lemma {:induction false} ReadsAlone(strict: bool, codec: Codec, s: Schema, x: Value, v: Value, t: string,
                                      rest: string)
    requires Lawful(codec) && Spells(codec, s, x, v, t) && Follows(s, rest)
    ensures ReadValue(strict, codec, s, t + rest, x) == Ok(|t|, v)
    decreases s, 4
  {
    Nothing(t + rest);
    ReadsValue(strict, codec, s, x, v, "", t, rest);
  }

  lemma {:induction false} ReadsToken(strict: bool, codec: Codec, s: Schema, x: Value, v: Value, t: string,
                                      rest: string)
    requires Lawful(codec) && Spells(codec, s, x, v, t) && Follows(s, rest) && t != []
    ensures ReadToken(strict, codec, s, t + rest, x) == Ok(|t|, v)
    decreases s, 2
  {
    if Composite(s) { ReadsComposite(strict, codec, s, x, v, t, rest); } else { ReadsScalar(codec, s, x, v, t, rest); }
  }

  lemma ReadsScalar(codec: Codec, s: Schema, x: Value, v: Value, t: string, rest: string)
    requires Lawful(codec) && Spells(codec, s, x, v, t) && Follows(s, rest) && t != [] && !Composite(s)
    ensures ReadScalar(codec, s, t + rest) == Ok(|t|, v)
  {
    match s
    case BoolS => ReadsBool(v.b, rest);
    case NumberS => assert EndStands(codec, t, v.n, rest);
    case StringS => ReadsString(v.s, rest);
    case EnumS(table) =>
      var name :| Closed(name) && ValueOf(table, name) == Some(v.e) && t == Quoted(name);
      ReadsString(name, rest);
  }

  lemma {:induction false} ReadsComposite(strict: bool, codec: Codec, s: Schema, x: Value, v: Value, t: string,
                                          rest: string)
    requires Lawful(codec) && Spells(codec, s, x, v, t) && t != [] && Composite(s)
    ensures ReadComposite(strict, codec, s, t + rest, x) == Ok(|t|, v)
    decreases s, 1
  {
    match s
    case ListS(e) =>
      var items, inside :|
        Blank(inside) && t == ListText(items, inside) && SpellsList(codec, s, ListOf(x), v.list, items);
      ReadsList(strict, codec, s, ListOf(x), v.list, items, inside, rest);
    case TupleS(es) =>
      var items :| t == ListText(items, "") && SpellsTuple(codec, s, TupleOf(es, x), v.tuple, items);
      ReadsTuple(strict, codec, s, TupleOf(es, x), v.tuple, items, rest);
    case RecordS(ms) =>
      var fields, parts :|
        t == RecordText(fields) && SpellsRecord(codec, s, RecordOf(ms, x), v.record, fields, parts);
      ReadsRecord(strict, codec, s, RecordOf(ms, x), v.record, fields, parts, rest);
  }

  lemma ReadsBool(b: bool, rest: string)
    ensures ReadBool((if b then "true" else "false") + rest) == Ok(if b then 4 else 5, BoolV(b))
  {
    var t := (if b then "true" else "false") + rest;
    if b {
      assert t[..4] == "true";
    } else {
      assert t[0] == 'f' && t[..5] == "false";
      assert t[..4][0] == 'f';
    }
  }

  // ------------------------------------------------------------------- lists

  lemma {:induction false} ItemsRest(items: seq<Item>, i: nat, rest: string)
    requires i < |items|
    ensures Items(items, i, "") + rest == Items(items, i, rest)
    decreases |items| - i
  {
    var w := Behind(items, i, "");
    if i == |items| - 1 { assert w + rest == rest; } else { ItemsRest(items, i + 1, rest); }
    PaddedRest(items[i], Separator(i, |items|, ']'), w, rest);
  }

  lemma EmptyListReads(turn: (nat, string, seq<Value>) -> Result<Turn>, list: seq<Value>, inside: string, rest: string)
    requires Moves(turn) && Blank(inside)
    ensures ReadList(turn, "[" + (inside + ([']'] + rest)), list) == Ok(|inside| + 2, ListV(list))
  {
    var u := inside + ([']'] + rest);
    SkipsBlank(inside, [']'] + rest);
    var t := "[" + u;
    assert t[1..] == u && t[1 + |inside|] == u[|inside|];
  }

  lemma ListOpens(turn: (nat, string, seq<Value>) -> Result<Turn>, list: seq<Value>, before: string, w: string, q: nat,
                  vs: seq<Value>)
    requires Moves(turn) && Blank(before) && w != [] && w[0] > ' ' && w[0] != ']'
    requires Turns(turn, 0, w, list) == Ok(q, vs)
    ensures ReadList(turn, "[" + (before + w), list) == Ok(1 + |before| + q, ListV(vs))
  {
    var u := before + w;
    SkipsBlank(before, w);
    var t := "[" + u;
    assert t[1..] == u && t[1 + |before|] == w[0];
    assert t[1 + |before|..] == w;
  }

  /** Wherever the text stands between blanks and before punctuation, the reader
      takes exactly the text and gives the value. */
  ghost predicate ReadsAs(read: string -> Result<Value>, text: string, v: Value) {
    text != [] && text[0] > ' ' && text[0] != ']' &&
    forall before, after, c, w {:trigger Padded(Item(before, text, after), c, w)} ::
      Blank(before) && Blank(after) && Punctuation(c) ==>
        read(Padded(Item(before, text, after), c, w)) == Ok(|before| + |text|, v)
  }

  ghost predicate ReadsAll(read: string -> Result<Value>, items: seq<Item>, vs: seq<Value>) {
    |items| == |vs| && forall i :: 0 <= i < |items| ==> Spaced(items[i]) && ReadsAs(read, items[i].text, vs[i])
  }

  lemma ElementStep(strict: bool, read: string -> Result<Value>, t: string, list: seq<Value>, n: nat, v: Value, m: nat,
                    more: bool)
    requires Consumes(read) && read(t) == Ok(n, v) && AfterPart(strict, t, n, ']') == Ok(m, more)
    ensures ElementTurn(strict, read, t, list) == Ok(m, Turn(list + [v], more))
  {
  }

  lemma ItemTurn(strict: bool, read: string -> Result<Value>, item: Item, c: char, w: string, list: seq<Value>,
                 v: Value)
    requires Consumes(read) && Spaced(item) && item.text != [] && (c == ',' || c == ']')
    requires read(Padded(item, c, w)) == Ok(|item.before| + |item.text|, v)
    ensures var t := Padded(item, c, w);
      |w| < |t| && t[|t| - |w|..] == w &&
        ElementTurn(strict, read, t, list) == Ok(|t| - |w|, Turn(list + [v], c == ','))
  {
    var t, n := Padded(item, c, w), |item.before| + |item.text|;
    AfterItemReads(strict, item, c, w);
    ElementStep(strict, read, t, list, n, v, |t| - |w|, c == ',');
  }

  lemma ReadsItem(read: string -> Result<Value>, item: Item, c: char, w: string, v: Value)
    requires Spaced(item) && ReadsAs(read, item.text, v) && Punctuation(c)
    ensures read(Padded(item, c, w)) == Ok(|item.before| + |item.text|, v)
  {
    assert item == Item(item.before, item.text, item.after);
  }

  function Head(items: seq<Item>, i: nat): (item: Item)
    requires i < |items|
  {
    if i == 0 then items[0].(before := "") else items[i]
  }

  /** The text from each element on; the blanks before the first are gone. */
  function ItemTexts(items: seq<Item>, rest: string): (texts: seq<string>) {
    seq(|items| + 1, i requires 0 <= i <= |items| =>
      if i == |items| then rest
      else Padded(Head(items, i), Separator(i, |items|, ']'), Behind(items, i, rest)))
  }

  /** The list when i elements have been read. */
  function Prefixes(list: seq<Value>, vs: seq<Value>): (parts: seq<seq<Value>>) {
    seq(|vs| + 1, i requires 0 <= i <= |vs| => list + vs[..i])
  }

  lemma ItemsChain(strict: bool, read: string -> Result<Value>, items: seq<Item>, list: seq<Value>, vs: seq<Value>,
                   rest: string)
    requires Consumes(read) && ReadsAll(read, items, vs)
    ensures Chain(ElementTurns(strict, read), |items|, ItemTexts(items, rest), Prefixes(list, vs))
  {
    var turn, texts, parts := ElementTurns(strict, read), ItemTexts(items, rest), Prefixes(list, vs);
    forall i | 0 <= i < |items| ensures Link(turn, i, texts[i], parts[i], texts[i + 1], parts[i + 1], i + 1 < |items|) {
      ItemLink(strict, read, Head(items, i), list, vs, i, Separator(i, |items|, ']'), Behind(items, i, rest));
      NextText(items, list, vs, rest, i);
    }
  }

  lemma NextText(items: seq<Item>, list: seq<Value>, vs: seq<Value>, rest: string, i: nat)
    requires i < |items| == |vs|
    ensures ItemTexts(items, rest)[i] == Padded(Head(items, i), Separator(i, |items|, ']'), Behind(items, i, rest))
    ensures ItemTexts(items, rest)[i + 1] == Behind(items, i, rest)
    ensures Prefixes(list, vs)[i] == list + vs[..i] && Prefixes(list, vs)[i + 1] == list + vs[..i + 1]
  {
  }

  lemma ItemLink(strict: bool, read: string -> Result<Value>, head: Item, list: seq<Value>, vs: seq<Value>, i: nat,
                 c: char, w: string)
    requires Consumes(read) && i < |vs| && Spaced(head) && ReadsAs(read, head.text, vs[i])
    requires c == Separator(i, |vs|, ']')
    ensures Link(ElementTurns(strict, read), i, Padded(head, c, w), list + vs[..i], w, list + vs[..i + 1], i + 1 < |vs|)
  {
    ReadsItem(read, head, c, w, vs[i]);
    ItemTurn(strict, read, head, c, w, list + vs[..i], vs[i]);
    assert (list + vs[..i]) + [vs[i]] == list + vs[..i + 1];
  }

  lemma ReadsNoItems(turn: (nat, string, seq<Value>) -> Result<Turn>, list: seq<Value>, inside: string, rest: string)
    requires Moves(turn) && Blank(inside)
    ensures ReadList(turn, ListText([], inside) + rest, list) == Ok(|ListText([], inside)|, ListV(list))
  {
    DropFront(inside, "]", rest);
    DropFront("[", inside + "]", rest);
    EmptyListReads(turn, list, inside, rest);
  }

  lemma ReadsItems(strict: bool, read: string -> Result<Value>, items: seq<Item>, list: seq<Value>, vs: seq<Value>,
                   rest: string)
    requires Consumes(read) && ReadsAll(read, items, vs) && items != []
    ensures ReadList(ElementTurns(strict, read), ListText(items, "") + rest, list) ==
      Ok(|ListText(items, "")|, ListV(list + vs))
  {
    ItemsChain(strict, read, items, list, vs, rest);
    ItemsOpen(ElementTurns(strict, read), items, list, vs, rest);
    ItemsRest(items, 0, rest);
    DropFront("[", Items(items, 0, ""), rest);
  }

  /** After '[': blanks, then a bracket or the first element. */
  lemma ReadsListText(strict: bool, read: string -> Result<Value>, items: seq<Item>, list: seq<Value>, vs: seq<Value>,
                      inside: string, rest: string)
    requires Consumes(read) && ReadsAll(read, items, vs) && Blank(inside)
    ensures ReadList(ElementTurns(strict, read), ListText(items, inside) + rest, list) ==
      Ok(|ListText(items, inside)|, ListV(list + vs))
  {
    if items == [] {
      assert list + vs == list;
      ReadsNoItems(ElementTurns(strict, read), list, inside, rest);
    } else {
      ReadsItems(strict, read, items, list, vs, rest);
    }
  }

  lemma ItemsOpen(turn: (nat, string, seq<Value>) -> Result<Turn>, items: seq<Item>, list: seq<Value>, vs: seq<Value>,
                  rest: string)
    requires Moves(turn) && items != [] && |items| == |vs|
    requires Chain(turn, |items|, ItemTexts(items, rest), Prefixes(list, vs))
    requires Spaced(items[0]) && items[0].text != [] && items[0].text[0] > ' ' && items[0].text[0] != ']'
    ensures |Items(items, 0, rest)| >= |rest|
    ensures ReadList(turn, "[" + Items(items, 0, rest), list) ==
      Ok(1 + |Items(items, 0, rest)| - |rest|, ListV(list + vs))
  {
    var texts, parts := ItemTexts(items, rest), Prefixes(list, vs);
    ChainReads(turn, |items|, texts, parts, 0);
    assert list + vs[..0] == list && vs[..|vs|] == vs;
    HeadText(items[0], Separator(0, |items|, ']'), Behind(items, 0, rest));
    ListOpens(turn, list, items[0].before, texts[0], |texts[0]| - |rest|, list + vs);
  }

  lemma HeadText(item: Item, c: char, w: string)
    requires item.text != []
    ensures var t := Padded(item.(before := ""), c, w);
      item.before + t == Padded(item, c, w) && t != [] && t[0] == item.text[0]
  {
    assert "" + (item.text + (item.after + ([c] + w))) == item.text + (item.after + ([c] + w));
  }

  /** A list grows by the elements read. */
  lemma {:induction false} ReadsList(strict: bool, codec: Codec, s: Schema, list: seq<Value>, vs: seq<Value>,
                                     items: seq<Item>, inside: string, rest: string)
    requires Lawful(codec) && s.ListS? && Blank(inside) && SpellsList(codec, s, list, vs, items)
    ensures ReadList(ElementTurns(strict, ElementReader(strict, codec, s.elem)), ListText(items, inside) + rest, list)
         == Ok(|ListText(items, inside)|, ListV(vs))
    decreases s, 0
  {
    var read, more := ElementReader(strict, codec, s.elem), vs[|list|..];
    forall i | 0 <= i < |items| ensures Spaced(items[i]) && ReadsAs(read, items[i].text, more[i]) {
      ReadsElement(strict, codec, s.elem, more[i], items[i].text);
    }
    ReadsListText(strict, read, items, list, more, inside, rest);
    assert list + more == vs;
  }

  lemma {:induction false} ReadsElement(strict: bool, codec: Codec, e: Schema, v: Value, text: string)
    requires Lawful(codec) && Spells(codec, e, Default(e), v, text)
    ensures ReadsAs(ElementReader(strict, codec, e), text, v)
    decreases e, 4
  {
    SpellsStarts(codec, e, Default(e), v, text);
    forall before, after, c, w | Blank(before) && Blank(after) && Punctuation(c)
      ensures ElementReader(strict, codec, e)(Padded(Item(before, text, after), c, w)) == Ok(|before| + |text|, v)
    {
      PunctuationFollows(e, after, c, w);
      ReadsValue(strict, codec, e, Default(e), v, before, text, after + ([c] + w));
    }
  }

  // ------------------------------------------------------------------ tuples

  /** The same as ReadsAs for a part that holds x before. */
  ghost predicate PartReadsAs(read: (nat, string, Value) -> Result<Value>, i: nat, x: Value, text: string, v: Value) {
    text != [] &&
    forall before, after, c, w {:trigger Padded(Item(before, text, after), c, w)} ::
      Blank(before) && Blank(after) && Punctuation(c) ==>
        read(i, Padded(Item(before, text, after), c, w), x) == Ok(|before| + |text|, v)
  }

  ghost predicate PartsReadAs(read: (nat, string, Value) -> Result<Value>, xs: seq<Value>, items: seq<Item>,
                              vs: seq<Value>) {
    |items| == |vs| == |xs| &&
    forall i :: 0 <= i < |items| ==> Spaced(items[i]) && PartReadsAs(read, i, xs[i], items[i].text, vs[i])
  }

  lemma PartStep(strict: bool, read: (nat, string, Value) -> Result<Value>, i: nat, t: string, xs: seq<Value>, n: nat,
                 v: Value, m: nat, more: bool)
    requires ConsumesAll(read) && i < |xs| && read(i, t, xs[i]) == Ok(n, v)
    requires AfterElement(strict, t, n, i == |xs| - 1) == Ok(m, more)
    ensures TupleTurn(strict, read, i, t, xs) == Ok(m, Turn(xs[i := v], more))
  {
  }

  lemma PartTurn(strict: bool, read: (nat, string, Value) -> Result<Value>, i: nat, item: Item, w: string,
                 xs: seq<Value>, v: Value)
    requires ConsumesAll(read) && i < |xs| && Spaced(item) && item.text != []
    requires read(i, Padded(item, Separator(i, |xs|, ']'), w), xs[i]) == Ok(|item.before| + |item.text|, v)
    ensures var t := Padded(item, Separator(i, |xs|, ']'), w);
      |w| < |t| && t[|t| - |w|..] == w &&
        TupleTurn(strict, read, i, t, xs) == Ok(|t| - |w|, Turn(xs[i := v], i + 1 < |xs|))
  {
    var c := Separator(i, |xs|, ']');
    var t, n := Padded(item, c, w), |item.before| + |item.text|;
    AfterElementReads(strict, item, c, w, i == |xs| - 1);
    PartStep(strict, read, i, t, xs, n, v, |t| - |w|, i + 1 < |xs|);
  }

  lemma ReadsPartItem(read: (nat, string, Value) -> Result<Value>, i: nat, x: Value, item: Item, c: char, w: string,
                      v: Value)
    requires Spaced(item) && PartReadsAs(read, i, x, item.text, v) && Punctuation(c)
    ensures item.text != [] && read(i, Padded(item, c, w), x) == Ok(|item.before| + |item.text|, v)
  {
    assert item == Item(item.before, item.text, item.after);
  }

  function PartTexts(items: seq<Item>, rest: string): (texts: seq<string>) {
    seq(|items| + 1, i requires 0 <= i <= |items| => if i == |items| then rest else Items(items, i, rest))
  }

  /** The tuple when i elements have been read. */
  function Mixed(vs: seq<Value>, xs: seq<Value>): (parts: seq<seq<Value>>)
    requires |xs| == |vs|
  {
    seq(|vs| + 1, i requires 0 <= i <= |vs| => vs[..i] + xs[i..])
  }

  lemma PartLink(strict: bool, read: (nat, string, Value) -> Result<Value>, xs: seq<Value>, item: Item, vs: seq<Value>,
                 i: nat, w: string)
    requires ConsumesAll(read) && i < |xs| == |vs| && Spaced(item) && PartReadsAs(read, i, xs[i], item.text, vs[i])
    ensures Link(TupleTurns(strict, read), i, Padded(item, Separator(i, |xs|, ']'), w), vs[..i] + xs[i..], w,
      vs[..i + 1] + xs[i + 1..], i + 1 < |xs|)
  {
    var now := vs[..i] + xs[i..];
    ReadsPartItem(read, i, now[i], item, Separator(i, |xs|, ']'), w, vs[i]);
    PartTurn(strict, read, i, item, w, now, vs[i]);
    assert now[i := vs[i]] == vs[..i + 1] + xs[i + 1..];
  }

  lemma PartsChain(strict: bool, read: (nat, string, Value) -> Result<Value>, xs: seq<Value>, items: seq<Item>,
                   vs: seq<Value>, rest: string)
    requires ConsumesAll(read) && PartsReadAs(read, xs, items, vs)
    ensures Chain(TupleTurns(strict, read), |items|, PartTexts(items, rest), Mixed(vs, xs))
  {
    var turn, texts, parts := TupleTurns(strict, read), PartTexts(items, rest), Mixed(vs, xs);
    forall i | 0 <= i < |items| ensures Link(turn, i, texts[i], parts[i], texts[i + 1], parts[i + 1], i + 1 < |items|) {
      PartLink(strict, read, xs, items[i], vs, i, Behind(items, i, rest));
      NextPart(items, rest, i);
    }
  }

  lemma NextPart(items: seq<Item>, rest: string, i: nat)
    requires i < |items|
    ensures PartTexts(items, rest)[i + 1] == Behind(items, i, rest)
  {
  }

  lemma PartsOpen(turn: (nat, string, seq<Value>) -> Result<Turn>, xs: seq<Value>, items: seq<Item>, vs: seq<Value>,
                  rest: string)
    requires Moves(turn) && items != [] && |items| == |vs| == |xs|
    requires Chain(turn, |items|, PartTexts(items, rest), Mixed(vs, xs))
    ensures |Items(items, 0, rest)| >= |rest|
    ensures ReadTuple(turn, "[" + Items(items, 0, rest), xs) == Ok(1 + |Items(items, 0, rest)| - |rest|, TupleV(vs))
  {
    ChainReads(turn, |items|, PartTexts(items, rest), Mixed(vs, xs), 0);
    assert vs[..0] + xs[0..] == xs && vs[..|vs|] + xs[|vs|..] == vs;
    assert ("[" + Items(items, 0, rest))[1..] == Items(items, 0, rest);
  }

  lemma {:induction false} ReadsTuple(strict: bool, codec: Codec, s: Schema, xs: seq<Value>, vs: seq<Value>,
                                      items: seq<Item>, rest: string)
    requires Lawful(codec) && s.TupleS? && SpellsTuple(codec, s, xs, vs, items)
    ensures ReadTuple(TupleTurns(strict, PartReader(strict, codec, s)), ListText(items, "") + rest, xs)
         == Ok(|ListText(items, "")|, TupleV(vs))
    decreases s, 0
  {
    var read := PartReader(strict, codec, s);
    forall i | 0 <= i < |items| ensures Spaced(items[i]) && PartReadsAs(read, i, xs[i], items[i].text, vs[i]) {
      ReadsPart(strict, codec, s, i, xs[i], vs[i], items[i].text);
    }
    PartsChain(strict, read, xs, items, vs, rest);
    PartsOpen(TupleTurns(strict, read), xs, items, vs, rest);
    ItemsRest(items, 0, rest);
    DropFront("[", Items(items, 0, ""), rest);
  }

  lemma {:induction false} ReadsPart(strict: bool, codec: Codec, s: Schema, i: nat, x: Value, v: Value, text: string)
    requires Lawful(codec) && (s.TupleS? || s.RecordS?) && i < PartCount(s) && Spells(codec, Part(s, i), x, v, text)
    ensures PartReadsAs(PartReader(strict, codec, s), i, x, text, v)
    decreases Part(s, i), 4
  {
    var p := Part(s, i);
    SpellsStarts(codec, p, x, v, text);
    forall before, after, c, w | Blank(before) && Blank(after) && Punctuation(c)
      ensures PartReader(strict, codec, s)(i, Padded(Item(before, text, after), c, w), x) == Ok(|before| + |text|, v)
    {
      PunctuationFollows(p, after, c, w);
      ReadsValue(strict, codec, p, x, v, before, text, after + ([c] + w));
    }
  }

  // ----------------------------------------------------------------- records

  lemma {:induction false} FieldsRest(fields: seq<Field>, j: nat, rest: string)
    requires j < |fields|
    ensures Fields(fields, j, "") + rest == Fields(fields, j, rest)
    decreases |fields| - j
  {
    var item, c, w := fields[j].item, Separator(j, |fields|, '}'), BehindField(fields, j, "");
    if j == |fields| - 1 { assert w + rest == rest; } else { FieldsRest(fields, j + 1, rest); }
    PaddedRest(item, c, w, rest);
    DropFront(KeyText(fields[j]), Padded(item, c, w), rest);
  }

  /** The field's text reads as the new value of its member into the old one. */
  ghost predicate FieldReadsAs(read: (nat, string, Value) -> Result<Value>, keys: seq<string>, f: Field,
                               now: seq<Value>, next: seq<Value>) {
    |now| == |next| == |keys| && FieldSpaced(f) &&
    match Find(keys, f.key)
    case Some(i) => next == now[i := next[i]] && PartReadsAs(read, i, now[i], f.item.text, next[i])
    case None => false
  }

  ghost predicate FieldsReadAs(read: (nat, string, Value) -> Result<Value>, keys: seq<string>, fields: seq<Field>,
                               parts: seq<seq<Value>>) {
    |parts| == |fields| + 1 &&
    forall j :: 0 <= j < |fields| ==> FieldReadsAs(read, keys, fields[j], parts[j], parts[j + 1])
  }

  lemma ValueStep(strict: bool, read: (nat, string, Value) -> Result<Value>, t: string, k: nat, i: nat, xs: seq<Value>,
                  u: string, n: nat, v: Value, m: nat, more: bool)
    requires ConsumesAll(read) && i < |xs| && k <= |t| && u == t[k..] && read(i, u, xs[i]) == Ok(n, v)
    requires AfterPart(strict, t, k + n, '}') == Ok(m, more)
    ensures MemberValue(strict, read, t, k, i, xs) == Ok(m, Turn(xs[i := v], more))
  {
  }

  lemma FieldTurn(strict: bool, read: (nat, string, Value) -> Result<Value>, keys: seq<string>, front: string,
                  item: Item, c: char, w: string, xs: seq<Value>, i: nat, v: Value)
    requires ConsumesAll(read) && i < |xs| && Spaced(item) && item.text != [] && (c == ',' || c == '}')
    requires ReadKey(keys, front + Padded(item, c, w)) == Ok(|front|, i)
    requires read(i, Padded(item, c, w), xs[i]) == Ok(|item.before| + |item.text|, v)
    ensures var t := front + Padded(item, c, w);
      |w| < |t| && t[|t| - |w|..] == w &&
        MemberTurn(strict, read, keys, t, xs) == Ok(|t| - |w|, Turn(xs[i := v], c == ','))
  {
    var t := front + Padded(item, c, w);
    FieldValue(strict, read, item, front, c, w, xs, i, v);
    MemberKey(strict, read, keys, t, xs, |front|, i, Ok(|t| - |w|, Turn(xs[i := v], c == ',')));
  }

  lemma MemberKey(strict: bool, read: (nat, string, Value) -> Result<Value>, keys: seq<string>, t: string,
                  xs: seq<Value>, k: nat, i: nat, r: Result<Turn>)
    requires ConsumesAll(read) && ReadKey(keys, t) == Ok(k, i) && MemberValue(strict, read, t, k, i, xs) == r
    ensures MemberTurn(strict, read, keys, t, xs) == r
  {
  }

  lemma FieldValue(strict: bool, read: (nat, string, Value) -> Result<Value>, item: Item, front: string, c: char,
                   w: string, xs: seq<Value>, i: nat, v: Value)
    requires ConsumesAll(read) && i < |xs| && Spaced(item) && item.text != [] && (c == ',' || c == '}')
    requires read(i, Padded(item, c, w), xs[i]) == Ok(|item.before| + |item.text|, v)
    ensures var t := front + Padded(item, c, w);
      |w| < |t| && t[|t| - |w|..] == w &&
        MemberValue(strict, read, t, |front|, i, xs) == Ok(|t| - |w|, Turn(xs[i := v], c == ','))
  {
    var u := Padded(item, c, w);
    var t, n := front + u, |item.before| + |item.text|;
    FrontGone(front, u);
    AfterPartReads(strict, front, item, c, w, '}');
    ValueStep(strict, read, t, |front|, i, xs, u, n, v, |t| - |w|, c == ',');
  }

  function FieldTexts(fields: seq<Field>, rest: string): (texts: seq<string>) {
    seq(|fields| + 1, j requires 0 <= j <= |fields| => if j == |fields| then rest else Fields(fields, j, rest))
  }

  lemma FieldLink(strict: bool, read: (nat, string, Value) -> Result<Value>, keys: seq<string>, fields: seq<Field>,
                  parts: seq<seq<Value>>, j: nat, w: string)
    requires ConsumesAll(read) && FieldsReadAs(read, keys, fields, parts) && j < |fields|
    ensures Link(MemberTurns(strict, read, keys), j,
                 KeyText(fields[j]) + Padded(fields[j].item, Separator(j, |fields|, '}'), w), parts[j],
                 w, parts[j + 1], j + 1 < |fields|)
  {
    var f, c, now := fields[j], Separator(j, |fields|, '}'), parts[j];
    assert FieldReadsAs(read, keys, f, now, parts[j + 1]);
    var i := Find(keys, f.key).value;
    var v := parts[j + 1][i];
    ReadsPartItem(read, i, now[i], f.item, c, w, v);
    KeyLink(strict, read, keys, f, c, w, now, i, v, j);
  }

  lemma KeyLink(strict: bool, read: (nat, string, Value) -> Result<Value>, keys: seq<string>, f: Field, c: char,
                w: string, xs: seq<Value>, i: nat, v: Value, j: nat)
    requires ConsumesAll(read) && i < |xs| && FieldSpaced(f) && f.item.text != [] && (c == ',' || c == '}')
    requires Find(keys, f.key) == Some(i)
    requires read(i, Padded(f.item, c, w), xs[i]) == Ok(|f.item.before| + |f.item.text|, v)
    ensures Link(MemberTurns(strict, read, keys), j, KeyText(f) + Padded(f.item, c, w), xs, w, xs[i := v], c == ',')
  {
    ReadsKey(keys, f, Padded(f.item, c, w));
    BehindKey(strict, read, keys, KeyText(f), f.item, c, w, xs, i, v, j);
  }

  lemma BehindKey(strict: bool, read: (nat, string, Value) -> Result<Value>, keys: seq<string>, front: string,
                  item: Item, c: char, w: string, xs: seq<Value>, i: nat, v: Value, j: nat)
    requires ConsumesAll(read) && i < |xs| && Spaced(item) && item.text != [] && (c == ',' || c == '}')
    requires ReadKey(keys, front + Padded(item, c, w)) == Ok(|front|, i)
    requires read(i, Padded(item, c, w), xs[i]) == Ok(|item.before| + |item.text|, v)
    ensures Link(MemberTurns(strict, read, keys), j, front + Padded(item, c, w), xs, w, xs[i := v], c == ',')
  {
    FieldTurn(strict, read, keys, front, item, c, w, xs, i, v);
    MemberLink(strict, read, keys, j, front + Padded(item, c, w), xs, w, xs[i := v], c == ',');
  }

  lemma MemberLink(strict: bool, read: (nat, string, Value) -> Result<Value>, keys: seq<string>, j: nat, t: string,
                   xs: seq<Value>, w: string, next: seq<Value>, more: bool)
    requires ConsumesAll(read) && |w| < |t| && t[|t| - |w|..] == w
    requires MemberTurn(strict, read, keys, t, xs) == Ok(|t| - |w|, Turn(next, more))
    ensures Link(MemberTurns(strict, read, keys), j, t, xs, w, next, more)
  {
  }

  lemma FieldsChain(strict: bool, read: (nat, string, Value) -> Result<Value>, keys: seq<string>, fields: seq<Field>,
                    parts: seq<seq<Value>>, rest: string)
    requires ConsumesAll(read) && FieldsReadAs(read, keys, fields, parts)
    ensures Chain(MemberTurns(strict, read, keys), |fields|, FieldTexts(fields, rest), parts)
  {
    var turn, texts := MemberTurns(strict, read, keys), FieldTexts(fields, rest);
    forall j | 0 <= j < |fields|
      ensures Link(turn, j, texts[j], parts[j], texts[j + 1], parts[j + 1], j + 1 < |fields|)
    {
      FieldLink(strict, read, keys, fields, parts, j, BehindField(fields, j, rest));
      NextField(fields, rest, j);
    }
  }

  lemma NextField(fields: seq<Field>, rest: string, j: nat)
    requires j < |fields|
    ensures FieldTexts(fields, rest)[j] ==
      KeyText(fields[j]) + Padded(fields[j].item, Separator(j, |fields|, '}'), BehindField(fields, j, rest))
    ensures FieldTexts(fields, rest)[j + 1] == BehindField(fields, j, rest)
  {
  }

  lemma FieldsOpen(turn: (nat, string, seq<Value>) -> Result<Turn>, fields: seq<Field>, parts: seq<seq<Value>>,
                   rest: string)
    requires Moves(turn) && fields != [] && Chain(turn, |fields|, FieldTexts(fields, rest), parts)
    ensures |Fields(fields, 0, rest)| >= |rest|
    ensures ReadRecord(turn, "{" + Fields(fields, 0, rest), parts[0]) ==
      Ok(1 + |Fields(fields, 0, rest)| - |rest|, RecordV(parts[|fields|]))
  {
    ChainReads(turn, |fields|, FieldTexts(fields, rest), parts, 0);
    assert ("{" + Fields(fields, 0, rest))[1..] == Fields(fields, 0, rest);
  }

  lemma {:induction false} ReadsRecord(strict: bool, codec: Codec, s: Schema, xs: seq<Value>, vs: seq<Value>,
                                       fields: seq<Field>, parts: seq<seq<Value>>, rest: string)
    requires Lawful(codec) && s.RecordS? && SpellsRecord(codec, s, xs, vs, fields, parts)
    ensures ReadRecord(MemberTurns(strict, PartReader(strict, codec, s), KeysOf(s.members)), RecordText(fields) + rest,
                       xs)
         == Ok(|RecordText(fields)|, RecordV(vs))
    decreases s, 0
  {
    var read, keys := PartReader(strict, codec, s), KeysOf(s.members);
    forall j | 0 <= j < |fields| ensures FieldReadsAs(read, keys, fields[j], parts[j], parts[j + 1]) {
      assert Assigns(codec, s, fields[j], parts[j], parts[j + 1]);
      var i := Find(keys, fields[j].key).value;
      ReadsPart(strict, codec, s, i, parts[j][i], parts[j + 1][i], fields[j].item.text);
    }
    FieldsChain(strict, read, keys, fields, parts, rest);
    FieldsOpen(MemberTurns(strict, read, keys), fields, parts, rest);
    FieldsRest(fields, 0, rest);
    DropFront("{", Fields(fields, 0, ""), rest);
  }

  // ------------------------------------------------- members named once or not at all

  /** The members the fields name have values read into what they held, and the others
      keep theirs. */
  ghost predicate Updates(codec: Codec, s: Schema, xs: seq<Value>, vs: seq<Value>, fields: seq<Field>)
    requires s.RecordS?
  {
    var keys := KeysOf(s.members);
    && |xs| == |vs| == |keys| && fields != [] && NamesOnce(fields, keys)
    && (forall j :: 0 <= j < |fields| ==> FieldSpaced(fields[j]) && Gives(codec, s, xs, vs, fields[j]))
    && (forall i :: 0 <= i < |keys| ==> vs[i] == xs[i] || Named(fields, |fields|, keys[i]))
  }

  ghost predicate Gives(codec: Codec, s: Schema, xs: seq<Value>, vs: seq<Value>, f: Field)
    requires s.RecordS? && |xs| == |vs| == |s.members|
  {
    match Find(KeysOf(s.members), f.key)
    case Some(i) => Spells(codec, s.members[i].schema, xs[i], vs[i], f.item.text)
    case None => false
  }

  /** The record when n fields have been read: the members named so far have their
      new values, the others their old ones. */
  ghost function Partial(keys: seq<string>, olds: seq<Value>, news: seq<Value>, fields: seq<Field>,
                         n: nat): (xs: seq<Value>)
    requires |olds| == |news| == |keys| && n <= |fields|
  {
    seq(|keys|, i requires 0 <= i < |keys| => if Named(fields, n, keys[i]) then news[i] else olds[i])
  }

  ghost function Partials(keys: seq<string>, olds: seq<Value>, news: seq<Value>,
                          fields: seq<Field>): (parts: seq<seq<Value>>)
    requires |olds| == |news| == |keys|
  {
    seq(|fields| + 1, j requires 0 <= j <= |fields| => Partial(keys, olds, news, fields, j))
  }

  lemma PartialNext(keys: seq<string>, olds: seq<Value>, news: seq<Value>, fields: seq<Field>, n: nat, i: nat)
    requires |olds| == |news| == |keys| && NamesOnce(fields, keys)
    requires n < |fields| && i < |keys| && fields[n].key == keys[i]
    ensures Partial(keys, olds, news, fields, n)[i] == olds[i]
    ensures Partial(keys, olds, news, fields, n + 1)[i] == news[i]
    ensures Partial(keys, olds, news, fields, n + 1) == Partial(keys, olds, news, fields, n)[i := news[i]]
  {
    forall k | 0 <= k < |keys| ensures Named(fields, n + 1, keys[k]) <==> k == i || Named(fields, n, keys[k]) {
      if k != i { assert keys[k] != keys[i]; }
      if k == i { assert fields[n].key == keys[k]; }
    }
  }

  lemma PartialEnds(keys: seq<string>, olds: seq<Value>, news: seq<Value>, fields: seq<Field>)
    requires |olds| == |news| == |keys|
    requires forall i :: 0 <= i < |keys| ==> news[i] == olds[i] || Named(fields, |fields|, keys[i])
    ensures Partial(keys, olds, news, fields, 0) == olds
    ensures Partial(keys, olds, news, fields, |fields|) == news
  {
    forall i | 0 <= i < |keys| ensures !Named(fields, 0, keys[i]) {
    }
  }

  /** In which order such fields come does not matter: their text makes the new record
      of the old one. */
  lemma UpdatesSpell(codec: Codec, s: Schema, xs: seq<Value>, vs: seq<Value>, fields: seq<Field>)
    requires s.RecordS? && Updates(codec, s, xs, vs, fields)
    ensures SpellsRecord(codec, s, xs, vs, fields, Partials(KeysOf(s.members), xs, vs, fields))
  {
    var keys := KeysOf(s.members);
    var parts := Partials(keys, xs, vs, fields);
    PartialEnds(keys, xs, vs, fields);
    forall j | 0 <= j < |fields|
      ensures FieldSpaced(fields[j]) && Assigns(codec, s, fields[j], parts[j], parts[j + 1])
    {
      assert Gives(codec, s, xs, vs, fields[j]);
      PartialNext(keys, xs, vs, fields, j, Find(keys, fields[j].key).value);
    }
  }

  /** Members read in any order, each at most once: those named get their value, read
      into what they held, and all others keep theirs. */
  lemma ReadsMembers(strict: bool, codec: Codec, s: Schema, x: Value, vs: seq<Value>, fields: seq<Field>,
                     before: string, rest: string)
    requires Lawful(codec) && s.RecordS? && Blank(before) && Updates(codec, s, RecordOf(s.members, x), vs, fields)
    ensures ReadValue(strict, codec, s, before + (RecordText(fields) + rest), x)
         == Ok(|before| + |RecordText(fields)|, RecordV(vs))
  {
    UpdatesSpell(codec, s, RecordOf(s.members, x), vs, fields);
    assert Spells(codec, s, x, RecordV(vs), RecordText(fields));
    ReadsValue(strict, codec, s, x, RecordV(vs), before, RecordText(fields), rest);
  }
}
