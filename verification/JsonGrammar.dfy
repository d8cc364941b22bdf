/** What the strict JSON reader accepts is a text of what it returns. */
module JsonGrammar {

  import opened Wrappers
  import opened Strings
  import opened LookupTables
  import opened JsonTypes
  import opened JsonReader
  import opened JsonText

  // ------------------------------------------------------------------ tokens

  lemma {:induction false} TokenBlanks(t: string, i: nat)
    requires i <= |t|
    ensures forall k :: i <= k < FindToken(t, i) ==> t[k] <= ' '
    ensures FindToken(t, i) < |t| ==> t[FindToken(t, i)] > ' '
    decreases |t| - i
  {
    if i < |t| && t[i] <= ' ' { TokenBlanks(t, i + 1); }
  }

  /** Before a token there are blanks. */
  lemma SpaceBack(t: string, n: nat)
    requires SkipWhitespace(t) == Ok(n, ())
    ensures n < |t| && Blank(t[..n]) && t[n] > ' '
  {
    TokenBlanks(t, 0);
  }

  lemma SymbolBack(t: string, m: nat, c: char)
    requires ReadSymbol(t) == Ok(m, c)
    ensures 0 < m <= |t| && Blank(t[..m - 1]) && t[..m] == t[..m - 1] + [c] && c > ' '
  {
    SpaceBack(t, m - 1);
  }

  lemma {:induction false} StringEnds(t: string, i: nat, n: nat, key: string)
    requires t != [] && t[0] == '"' && 0 < i <= |t| && ReadStringFrom(t, i) == Ok(n, key)
    ensures i <= n < |t| && t[n] == '"' && key == t[1..n]
    decreases |t| - i
  {
    var j := FindQuote(t, i);
    FindQuoteLaw(t, i);
    if QuoteAt(t, j) == Escaped { StringEnds(t, j + 1, n, key); }
  }

  /** A string that is read stands between quotes and is closed. */
  lemma StringBack(t: string, n: nat, key: string)
    requires t != [] && ReadString(t) == Ok(n, key)
    ensures n + 1 <= |t| && t[..n + 1] == Quoted(key) && Closed(key)
  {
    StringEnds(t, 1, n, key);
    assert t[..n + 1] == Quoted(key);
    assert t == Quoted(key) + t[n + 1..];
    ReadsExactly(key, t[n + 1..]);
  }

  lemma NameBack(keys: seq<string>, t: string, n: nat, k: nat, i: nat) returns (key: string, colon: string)
    requires n < |t| && ReadName(keys, t, n) == Ok(k, i)
    ensures Closed(key) && Blank(colon) && Find(keys, key) == Some(i)
    ensures k == n + |Quoted(key)| + |colon| + 1 <= |t| && t[n..k] == Quoted(key) + (colon + ":")
  {
    var r := ReadString(t[n..]);
    key := r.value;
    StringBack(t[n..], r.n, key);
    var u := t[n + r.n + 1..];
    var m := ReadSymbol(u).n;
    SymbolBack(u, m, ':');
    colon := u[..m - 1];
    assert t[n..k] == t[n..][..r.n + 1] + u[..m];
  }

  /** The front of a field: its key and the blanks around it. */
  lemma KeyBack(keys: seq<string>, t: string, k: nat, i: nat) returns (f: Field)
    requires ReadKey(keys, t) == Ok(k, i)
    ensures Blank(f.before) && Blank(f.colon) && Closed(f.key) && Find(keys, f.key) == Some(i)
    ensures k <= |t| && t[..k] == KeyText(f)
  {
    var n := SkipWhitespace(t).n;
    SpaceBack(t, n);
    var key, colon := NameBack(keys, t, n, k, i);
    f := Field(t[..n], key, colon, Item("", "", ""));
    assert t[..k] == t[..n] + t[n..k];
  }

  lemma ScalarBack(codec: Codec, s: Schema, t: string, x: Value, n: nat, v: Value)
    requires Lawful(codec) && t != [] && !Composite(s) && ReadScalar(codec, s, t) == Ok(n, v)
    ensures n <= |t| && Spells(codec, s, x, v, t[..n])
  {
    match s
    case BoolS =>
    case NumberS => assert FrontStands(codec, t);
    case StringS => StringBack(t, n - 1, v.s);
    case EnumS(table) =>
      var name := ReadString(t).value;
      StringBack(t, n - 1, name);
      assert Closed(name) && ValueOf(table, name) == Some(v.e) && t[..n] == Quoted(name);
  }

  // ------------------------------------------------------------ items in a row

  lemma {:induction false} ItemsShift(items: seq<Item>, i: nat, rest: string)
    requires items != [] && i + 1 < |items|
    ensures Items(items, i + 1, rest) == Items(items[1..], i, rest)
    decreases |items| - i
  {
    if i + 2 < |items| { ItemsShift(items, i + 1, rest); }
  }

  lemma FirstItem(items: seq<Item>)
    requires items != []
    ensures Items(items, 0, "") == Padded(items[0], Separator(0, |items|, ']'), Behind(items, 0, ""))
  {
  }

  lemma BehindFirst(items: seq<Item>)
    requires items != []
    ensures Behind(items, 0, "") == if |items| == 1 then "" else Items(items[1..], 0, "")
  {
    if 1 < |items| { ItemsShift(items, 0, ""); }
  }

  /** Items begin with the first of them. */
  lemma ItemsUnfold(items: seq<Item>)
    requires items != []
    ensures Items(items, 0, "") ==
      Padded(items[0], Separator(0, |items|, ']'), if |items| == 1 then "" else Items(items[1..], 0, ""))
  {
    FirstItem(items);
    BehindFirst(items);
  }

  /** A value with blanks around it and the symbol behind it. */
  lemma ItemBack(t: string, n: nat, m: nat, c: char, before: string, text: string) returns (item: Item)
    requires n <= |t| && t[..n] == before + text && Blank(before) && ReadSymbol(t[n..]) == Ok(m, c)
    ensures Spaced(item) && item.text == text && n + m <= |t| && t[..n + m] == Padded(item, c, "")
  {
    SymbolBack(t[n..], m, c);
    item := Item(before, text, t[n..][..m - 1]);
    assert t[..n + m] == t[..n] + t[n..][..m];
    assert [c] + "" == [c];
    Assoc(before, text, item.after + ([c] + ""));
  }

  lemma PaddedFront(item: Item, c: char, w: string)
    ensures Padded(item, c, w) == Padded(item, c, "") + w
  {
    PaddedRest(item, c, "", w);
    assert "" + w == w;
  }

  /** One more item in front. */
  lemma OneItemMore(t: string, n: nat, m: nat, item: Item, items: seq<Item>)
    requires n + m <= |t| && t[..n] == Padded(item, ',', "") && items != [] && t[n..][..m] == Items(items, 0, "")
    ensures t[..n + m] == Items([item] + items, 0, "")
  {
    ItemsUnfold([item] + items);
    assert ([item] + items)[1..] == items;
    PaddedFront(item, ',', Items(items, 0, ""));
    assert t[..n + m] == t[..n] + t[n..][..m];
  }

  lemma LastItem(item: Item)
    ensures Items([item], 0, "") == Padded(item, ']', "")
  {
    ItemsUnfold([item]);
  }

  // ------------------------------------------------------------------ values

  /** The first n bytes of t are blanks and a text that fits v. */
  ghost predicate FitsFront(fits: (Value, string) -> bool, t: string, n: nat, v: Value) {
    exists before, text :: Blank(before) && Prefix(t, n, before + text) && fits(v, text)
  }

  /** What a text of type s makes of x. */
  ghost function Texts(codec: Codec, s: Schema, x: Value): (fits: (Value, string) -> bool) {
    (v: Value, text: string) => Spells(codec, s, x, v, text)
  }

  /** The first n bytes of t are blanks and a text that makes v of x. */
  ghost predicate Front(codec: Codec, s: Schema, x: Value, v: Value, t: string, n: nat) {
    FitsFront(Texts(codec, s, x), t, n, v)
  }

  predicate Prefix(t: string, n: nat, u: string) {
    n <= |t| && t[..n] == u
  }

  lemma FrontIs(fits: (Value, string) -> bool, v: Value, t: string, k: nat, n: nat)
    requires k + n <= |t| && Blank(t[..k]) && fits(v, t[k..][..n])
    ensures FitsFront(fits, t, k + n, v)
  {
    assert t[..k + n] == t[..k] + t[k..][..n];
    assert Prefix(t, k + n, t[..k] + t[k..][..n]);
  }

  lemma ValueInverse(codec: Codec, s: Schema, t: string, x: Value, n: nat, v: Value) returns (k: nat)
    requires ReadValue(true, codec, s, t, x) == Ok(n, v)
    ensures SkipWhitespace(t) == Ok(k, ()) && t[k..] != [] && k <= n
    ensures ReadToken(true, codec, s, t[k..], x) == Ok(n - k, v)
  {
    k := SkipWhitespace(t).n;
    ValueUnfolds(true, codec, s, t, x, k, t[k..]);
  }

  /** What the strict reader accepts, it read from a text of what it returns. */
  lemma {:induction false} AcceptedIsSpelled(codec: Codec, s: Schema, t: string, x: Value, n: nat, v: Value)
    requires Lawful(codec) && ReadValue(true, codec, s, t, x) == Ok(n, v)
    ensures Front(codec, s, x, v, t, n)
    decreases s, 5
  {
    var k := ValueInverse(codec, s, t, x, n, v);
    SpaceBack(t, k);
    TokenBack(codec, s, t[k..], x, n - k, v);
    FrontSpelled(codec, s, x, v, t, k, n);
  }

  lemma FrontSpelled(codec: Codec, s: Schema, x: Value, v: Value, t: string, k: nat, n: nat)
    requires k <= n <= |t| && Blank(t[..k]) && Spells(codec, s, x, v, t[k..][..n - k])
    ensures Front(codec, s, x, v, t, n)
  {
    FrontIs(Texts(codec, s, x), v, t, k, n - k);
  }

  lemma {:induction false} TokenBack(codec: Codec, s: Schema, t: string, x: Value, n: nat, v: Value)
    requires Lawful(codec) && t != [] && ReadToken(true, codec, s, t, x) == Ok(n, v)
    ensures n <= |t| && Spells(codec, s, x, v, t[..n])
    decreases s, 4
  {
    if !Composite(s) {
      ScalarBack(codec, s, t, x, n, v);
    } else {
      match s
      case ListS(_) => ListBack(codec, s, t, x, n, v);
      case TupleS(_) => TupleBack(codec, s, t, x, n, v);
      case RecordS(_) => RecordBack(codec, s, t, x, n, v);
    }
  }

  lemma TokenComposite(codec: Codec, s: Schema, t: string, x: Value)
    requires t != [] && Composite(s)
    ensures ReadToken(true, codec, s, t, x) == ReadComposite(true, codec, s, t, x)
  {
  }

  lemma TurnsInverse(turn: (nat, string, seq<Value>) -> Result<Turn>, i: nat, t: string, parts: seq<Value>, n: nat,
                     vs: seq<Value>) returns (k: nat, after: Turn)
    requires Moves(turn) && Turns(turn, i, t, parts) == Ok(n, vs)
    ensures turn(i, t, parts) == Ok(k, after) && 0 < k <= |t| && k <= n
    ensures if after.more then Turns(turn, i + 1, t[k..], after.parts) == Ok(n - k, vs) else n == k && vs == after.parts
  {
    var r := turn(i, t, parts);
    k, after := r.n, r.value;
  }

  // ------------------------------------------------------------------- lists

  lemma AfterPartInverse(t: string, n: nat, close: char, k: nat, more: bool) returns (m: nat, c: char)
    requires 0 < n <= |t| && AfterPart(true, t, n, close) == Ok(k, more) && close != ','
    ensures ReadSymbol(t[n..]) == Ok(m, c) && k == n + m && c == if more then ',' else close
  {
    m, c := ReadSymbol(t[n..]).n, ReadSymbol(t[n..]).value;
  }

  /** Whatever is read, its text fits it. */
  ghost predicate Backed(read: string -> Result<Value>, fits: (Value, string) -> bool) {
    forall t :: read(t).Ok? ==> FitsFront(fits, t, read(t).n, read(t).value)
  }

  ghost predicate AllFit(fits: (Value, string) -> bool, list: seq<Value>, vs: seq<Value>, items: seq<Item>) {
    list <= vs && |items| == |vs| - |list| &&
    forall i :: 0 <= i < |items| ==> Spaced(items[i]) && fits(vs[|list| + i], items[i].text)
  }

  lemma ElementBack(read: string -> Result<Value>, fits: (Value, string) -> bool, t: string, list: seq<Value>, k: nat,
                    after: Turn) returns (item: Item, v: Value)
    requires Consumes(read) && Backed(read, fits) && ElementTurn(true, read, t, list) == Ok(k, after)
    ensures after.parts == list + [v] && Spaced(item) && fits(v, item.text)
    ensures Prefix(t, k, Padded(item, if after.more then ',' else ']', ""))
  {
    var r := read(t);
    v := r.value;
    var before, text :| Blank(before) && Prefix(t, r.n, before + text) && fits(v, text);
    var m, c := AfterPartInverse(t, r.n, ']', k, after.more);
    item := ItemBack(t, r.n, m, c, before, text);
  }

  lemma ListGrows(fits: (Value, string) -> bool, list: seq<Value>, v: Value, vs: seq<Value>, item: Item,
                  items: seq<Item>)
    requires Spaced(item) && fits(v, item.text) && AllFit(fits, list + [v], vs, items)
    ensures AllFit(fits, list, vs, [item] + items)
  {
    assert vs[|list|] == (list + [v])[|list|];
    assert list == (list + [v])[..|list|];
    forall i | 0 <= i < |items| + 1
      ensures Spaced(([item] + items)[i]) && fits(vs[|list| + i], ([item] + items)[i].text)
    {
      if 0 < i { assert vs[|list| + i] == vs[|list + [v]| + (i - 1)]; }
    }
  }

  lemma {:induction false} ElementsBack(read: string -> Result<Value>, fits: (Value, string) -> bool, i: nat, t: string,
                                        list: seq<Value>, n: nat, vs: seq<Value>) returns (items: seq<Item>)
    requires Consumes(read) && Backed(read, fits) && Turns(ElementTurns(true, read), i, t, list) == Ok(n, vs)
    ensures items != [] && AllFit(fits, list, vs, items) && Prefix(t, n, Items(items, 0, ""))
    decreases |t|
  {
    var k, after := TurnsInverse(ElementTurns(true, read), i, t, list, n, vs);
    var item, v := ElementBack(read, fits, t, list, k, after);
    var rest: seq<Item> := [];
    if after.more {
      rest := ElementsBack(read, fits, i + 1, t[k..], after.parts, n - k, vs);
      OneItemMore(t, k, n - k, item, rest);
    } else {
      LastItem(item);
      assert [item] + [] == [item];
    }
    items := [item] + rest;
    ListGrows(fits, list, v, vs, item, rest);
  }

  lemma ListInverse(turn: (nat, string, seq<Value>) -> Result<Turn>, t: string, list: seq<Value>, n: nat, v: Value)
      returns (k: nat)
    requires Moves(turn) && t != [] && ReadList(turn, t, list) == Ok(n, v)
    ensures v.ListV? && 1 + k < |t| && t[0] == '[' && Blank(t[1..1 + k])
    ensures if t[1 + k] == ']' then n == k + 2 && v.list == list
            else 1 + k <= n && Turns(turn, 0, t[1 + k..], list) == Ok(n - 1 - k, v.list)
  {
    k := SkipWhitespace(t[1..]).n;
    SpaceBack(t[1..], k);
    assert t[1..1 + k] == t[1..][..k];
  }

  ghost function ElementFits(codec: Codec, e: Schema): (fits: (Value, string) -> bool) {
    Texts(codec, e, Default(e))
  }

  lemma {:induction false} ReaderBacked(codec: Codec, e: Schema)
    requires Lawful(codec)
    ensures Backed(ElementReader(true, codec, e), ElementFits(codec, e))
    decreases e, 6
  {
    var read := ElementReader(true, codec, e);
    forall t | read(t).Ok? ensures FitsFront(ElementFits(codec, e), t, read(t).n, read(t).value) {
      ElementReaderIs(true, codec, e, t);
      AcceptedIsSpelled(codec, e, t, Default(e), read(t).n, read(t).value);
    }
  }

  lemma FitsSpell(codec: Codec, s: Schema, list: seq<Value>, vs: seq<Value>, items: seq<Item>)
    requires s.ListS? && AllFit(ElementFits(codec, s.elem), list, vs, items)
    ensures SpellsList(codec, s, list, vs, items)
  {
  }

  lemma ListTextSpells(codec: Codec, s: Schema, x: Value, v: Value, text: string, items: seq<Item>, inside: string)
    requires s.ListS? && v.ListV? && Blank(inside) && text == ListText(items, inside)
    requires AllFit(ElementFits(codec, s.elem), ListOf(x), v.list, items)
    ensures Spells(codec, s, x, v, text)
  {
    FitsSpell(codec, s, ListOf(x), v.list, items);
  }

  /** A list, once its elements are known to be backed. */
  lemma ListTextBack(read: string -> Result<Value>, fits: (Value, string) -> bool, t: string, list: seq<Value>, n: nat,
                     v: Value) returns (items: seq<Item>, inside: string)
    requires Consumes(read) && Backed(read, fits) && t != [] && ReadList(ElementTurns(true, read), t, list) == Ok(n, v)
    ensures v.ListV? && Blank(inside) && Prefix(t, n, ListText(items, inside)) && AllFit(fits, list, v.list, items)
  {
    var k := ListInverse(ElementTurns(true, read), t, list, n, v);
    if t[1 + k] == ']' {
      items, inside := [], t[1..1 + k];
      NoItemsBack(fits, t, list, n, v.list, inside);
    } else {
      inside := "";
      items := ElementsBack(read, fits, 0, t[1 + k..], list, n - 1 - k, v.list);
      items := ItemsBack(fits, t, list, n, v.list, k, items);
    }
  }

  lemma {:induction false} ListBack(codec: Codec, s: Schema, t: string, x: Value, n: nat, v: Value)
    requires Lawful(codec) && s.ListS? && t != [] && ReadToken(true, codec, s, t, x) == Ok(n, v)
    ensures n <= |t| && Spells(codec, s, x, v, t[..n])
    decreases s, 1
  {
    var read, fits := ElementReader(true, codec, s.elem), ElementFits(codec, s.elem);
    TokenComposite(codec, s, t, x);
    ReaderBacked(codec, s.elem);
    var items, inside := ListTextBack(read, fits, t, ListOf(x), n, v);
    ListTextSpells(codec, s, x, v, t[..n], items, inside);
  }

  lemma NoItemsBack(fits: (Value, string) -> bool, t: string, list: seq<Value>, n: nat, vs: seq<Value>, inside: string)
    requires n == |inside| + 2 <= |t| && t[0] == '[' && inside == t[1..n - 1] && t[n - 1] == ']' && vs == list
    ensures t[..n] == ListText([], inside) && AllFit(fits, list, vs, [])
  {
  }

  lemma ItemsBack(fits: (Value, string) -> bool, t: string, list: seq<Value>, n: nat, vs: seq<Value>, k: nat,
                  items: seq<Item>) returns (all: seq<Item>)
    requires 1 + k <= n && 1 + k < |t| && t[0] == '[' && Blank(t[1..1 + k]) && items != []
    requires AllFit(fits, list, vs, items) && Prefix(t[1 + k..], n - 1 - k, Items(items, 0, ""))
    ensures n <= |t| && Blank("") && t[..n] == ListText(all, "") && AllFit(fits, list, vs, all)
  {
    var inside := t[1..1 + k];
    all := [items[0].(before := inside + items[0].before)] + items[1..];
    HeadBlanks(items, inside);
    Further(t, 1, k);
    assert t[1..][..k] == inside;
    FrontAndBack(t[1..], k, n - 1 - k, inside, Items(items, 0, ""));
    Opened(t, n, inside + Items(items, 0, ""));
  }

  /** The blanks behind the bracket belong to the first item. */
  lemma HeadBlanks(items: seq<Item>, inside: string)
    requires items != []
    ensures var all := [items[0].(before := inside + items[0].before)] + items[1..];
      Items(all, 0, "") == inside + Items(items, 0, "")
  {
    var head := items[0].(before := inside + items[0].before);
    var all := [head] + items[1..];
    ItemsUnfold(items);
    ItemsUnfold(all);
    assert all[1..] == items[1..];
    var c, w := Separator(0, |items|, ']'), if |items| == 1 then "" else Items(items[1..], 0, "");
    Assoc(inside, items[0].before, items[0].text + (items[0].after + ([c] + w)));
  }

  // ------------------------------------------------------------------ tuples

  lemma AfterElementInverse(t: string, n: nat, last: bool, k: nat, more: bool) returns (m: nat, c: char)
    requires 0 < n <= |t| && AfterElement(true, t, n, last) == Ok(k, more)
    ensures ReadSymbol(t[n..]) == Ok(m, c) && k == n + m && more == !last && c == if more then ',' else ']'
  {
    m, c := ReadSymbol(t[n..]).n, ReadSymbol(t[n..]).value;
  }

  /** The same for part i of a tuple or record, which holds x before. */
  ghost predicate PartsBacked(read: (nat, string, Value) -> Result<Value>, fits: (nat, Value, Value, string) -> bool,
                              m: nat) {
    forall i: nat, t, x :: i < m && read(i, t, x).Ok? ==>
      PartFitsFront(fits, i, x, t, read(i, t, x).n, read(i, t, x).value)
  }

  ghost predicate PartFitsFront(fits: (nat, Value, Value, string) -> bool, i: nat, x: Value, t: string, n: nat,
                                v: Value) {
    exists before, text :: Blank(before) && Prefix(t, n, before + text) && fits(i, x, v, text)
  }

  ghost function PartFits(codec: Codec, s: Schema): (fits: (nat, Value, Value, string) -> bool)
    requires s.TupleS? || s.RecordS?
  {
    (i: nat, x: Value, v: Value, text: string) => i < PartCount(s) && Spells(codec, Part(s, i), x, v, text)
  }

  lemma {:induction false} PartReaderBacked(codec: Codec, s: Schema)
    requires Lawful(codec) && (s.TupleS? || s.RecordS?)
    ensures PartsBacked(PartReader(true, codec, s), PartFits(codec, s), PartCount(s))
    decreases s, 0
  {
    var read, fits := PartReader(true, codec, s), PartFits(codec, s);
    forall i: nat, t, x | i < PartCount(s) && read(i, t, x).Ok?
      ensures PartFitsFront(fits, i, x, t, read(i, t, x).n, read(i, t, x).value)
    {
      AcceptedIsSpelled(codec, Part(s, i), t, x, read(i, t, x).n, read(i, t, x).value);
      PartFront(codec, s, i, x, t, read(i, t, x).n, read(i, t, x).value);
    }
  }

  lemma PartFront(codec: Codec, s: Schema, i: nat, x: Value, t: string, n: nat, v: Value)
    requires (s.TupleS? || s.RecordS?) && i < PartCount(s) && Front(codec, Part(s, i), x, v, t, n)
    ensures PartFitsFront(PartFits(codec, s), i, x, t, n, v)
  {
    var fits := Texts(codec, Part(s, i), x);
    var before, text :| Blank(before) && Prefix(t, n, before + text) && fits(v, text);
    assert PartFits(codec, s)(i, x, v, text);
  }

  lemma PartBack(read: (nat, string, Value) -> Result<Value>, fits: (nat, Value, Value, string) -> bool, i: nat,
                 t: string, xs: seq<Value>, k: nat, after: Turn) returns (item: Item, v: Value)
    requires ConsumesAll(read) && PartsBacked(read, fits, |xs|) && TupleTurn(true, read, i, t, xs) == Ok(k, after)
    ensures i < |xs| && after.parts == xs[i := v] && after.more == (i < |xs| - 1)
    ensures Spaced(item) && fits(i, xs[i], v, item.text)
    ensures Prefix(t, k, Padded(item, if after.more then ',' else ']', ""))
  {
    var r := read(i, t, xs[i]);
    v := r.value;
    var before, text :| Blank(before) && Prefix(t, r.n, before + text) && fits(i, xs[i], v, text);
    var m, c := AfterElementInverse(t, r.n, i == |xs| - 1, k, after.more);
    item := ItemBack(t, r.n, m, c, before, text);
  }

  /** Item k fits part i + k. */
  ghost predicate ItemFits(fits: (nat, Value, Value, string) -> bool, i: nat, x: Value, v: Value, item: Item) {
    Spaced(item) && fits(i, x, v, item.text)
  }

  /** The items fit the parts from number i on, which are the ones that change. */
  ghost predicate FitFrom(fits: (nat, Value, Value, string) -> bool, i: nat, xs: seq<Value>, vs: seq<Value>,
                          items: seq<Item>) {
    && |xs| == |vs| && i < |xs| && |items| == |xs| - i && vs[..i] == xs[..i]
    && forall k: nat :: k < |items| ==> ItemFits(fits, i + k, xs[i + k], vs[i + k], items[k])
  }

  lemma TupleGrows(fits: (nat, Value, Value, string) -> bool, i: nat, xs: seq<Value>, v: Value, now: seq<Value>,
                   vs: seq<Value>, item: Item, items: seq<Item>)
    requires i < |xs| - 1 && Spaced(item) && fits(i, xs[i], v, item.text)
    requires now == xs[i := v] && FitFrom(fits, i + 1, now, vs, items)
    ensures FitFrom(fits, i, xs, vs, [item] + items)
  {
    assert vs[i] == vs[..i + 1][i] == v;
    assert vs[..i] == vs[..i + 1][..i] == xs[..i];
    var all := [item] + items;
    forall k: nat | k < |all| ensures ItemFits(fits, i + k, xs[i + k], vs[i + k], all[k]) {
      if 0 < k {
        var j: nat := k - 1;
        assert ItemFits(fits, i + 1 + j, now[i + 1 + j], vs[i + 1 + j], items[j]);
      }
    }
  }

  /** The first n bytes of t are the items, which fit. */
  ghost predicate PartsRead(fits: (nat, Value, Value, string) -> bool, i: nat, t: string, n: nat, xs: seq<Value>,
                            vs: seq<Value>, items: seq<Item>) {
    FitFrom(fits, i, xs, vs, items) && Prefix(t, n, Items(items, 0, ""))
  }

  lemma PartsLast(fits: (nat, Value, Value, string) -> bool, i: nat, t: string, n: nat, xs: seq<Value>, v: Value,
                  vs: seq<Value>, item: Item)
    requires i < |xs| && i == |xs| - 1 && Spaced(item) && fits(i, xs[i], v, item.text) && vs == xs[i := v]
    requires Prefix(t, n, Padded(item, ']', ""))
    ensures PartsRead(fits, i, t, n, xs, vs, [item])
  {
    LastItem(item);
  }

  lemma PartsMore(fits: (nat, Value, Value, string) -> bool, i: nat, t: string, k: nat, n: nat, xs: seq<Value>,
                  v: Value, now: seq<Value>, vs: seq<Value>, item: Item, rest: seq<Item>)
    requires i < |xs| - 1 && Spaced(item) && fits(i, xs[i], v, item.text) && k <= n && k <= |t|
    requires now == xs[i := v] && PartsRead(fits, i + 1, t[k..], n - k, now, vs, rest)
    requires Prefix(t, k, Padded(item, ',', ""))
    ensures PartsRead(fits, i, t, n, xs, vs, [item] + rest)
  {
    OneItemMore(t, k, n - k, item, rest);
    TupleGrows(fits, i, xs, v, now, vs, item, rest);
  }

  /** The first of the parts read, and the turns that remain. */
  lemma FirstPartBack(read: (nat, string, Value) -> Result<Value>, fits: (nat, Value, Value, string) -> bool, i: nat,
                      t: string, xs: seq<Value>, n: nat, vs: seq<Value>)
      returns (k: nat, more: bool, now: seq<Value>, item: Item, v: Value)
    requires ConsumesAll(read) && PartsBacked(read, fits, |xs|)
    requires Turns(TupleTurns(true, read), i, t, xs) == Ok(n, vs)
    ensures i < |xs| == |now| && now == xs[i := v] && more == (i < |xs| - 1) && 0 < k <= n && k <= |t|
    ensures Spaced(item) && fits(i, xs[i], v, item.text) && Prefix(t, k, Padded(item, if more then ',' else ']', ""))
    ensures if more then Turns(TupleTurns(true, read), i + 1, t[k..], now) == Ok(n - k, vs) else n == k && vs == now
  {
    var after;
    k, after := TurnsInverse(TupleTurns(true, read), i, t, xs, n, vs);
    more, now := after.more, after.parts;
    item, v := PartBack(read, fits, i, t, xs, k, after);
  }

  lemma {:induction false} PartsBack(read: (nat, string, Value) -> Result<Value>,
                                     fits: (nat, Value, Value, string) -> bool, i: nat, t: string, xs: seq<Value>,
                                     n: nat, vs: seq<Value>) returns (items: seq<Item>)
    requires ConsumesAll(read) && PartsBacked(read, fits, |xs|)
    requires Turns(TupleTurns(true, read), i, t, xs) == Ok(n, vs)
    ensures PartsRead(fits, i, t, n, xs, vs, items)
    decreases |t|
  {
    var k, more, now, item, v := FirstPartBack(read, fits, i, t, xs, n, vs);
    if more {
      var rest := PartsBack(read, fits, i + 1, t[k..], now, n - k, vs);
      PartsMore(fits, i, t, k, n, xs, v, now, vs, item, rest);
      items := [item] + rest;
    } else {
      PartsLast(fits, i, t, n, xs, v, vs, item);
      items := [item];
    }
  }

  lemma TupleInverse(turn: (nat, string, seq<Value>) -> Result<Turn>, t: string, xs: seq<Value>, n: nat, v: Value)
    requires Moves(turn) && t != [] && ReadTuple(turn, t, xs) == Ok(n, v)
    ensures v.TupleV? && t[0] == '[' && 1 <= n && Turns(turn, 0, t[1..], xs) == Ok(n - 1, v.tuple)
  {
  }

  /** A text behind its opening bracket or brace. */
  lemma Opened(t: string, n: nat, u: string)
    requires t != [] && 1 <= n && Prefix(t[1..], n - 1, u)
    ensures n <= |t| && t[..n] == [t[0]] + u
  {
    assert t[..n] == [t[0]] + t[1..][..n - 1];
  }

  lemma FitsSpellTuple(codec: Codec, s: Schema, xs: seq<Value>, vs: seq<Value>, items: seq<Item>)
    requires s.TupleS? && |xs| == |s.elems| && FitFrom(PartFits(codec, s), 0, xs, vs, items)
    ensures SpellsTuple(codec, s, xs, vs, items)
  {
    forall i | 0 <= i < |items| ensures Spaced(items[i]) && Spells(codec, s.elems[i], xs[i], vs[i], items[i].text) {
      assert ItemFits(PartFits(codec, s), 0 + i, xs[0 + i], vs[0 + i], items[i]);
    }
  }

  lemma TupleTextSpells(codec: Codec, s: Schema, x: Value, v: Value, text: string, items: seq<Item>)
    requires s.TupleS? && v.TupleV? && text == ListText(items, "")
    requires FitFrom(PartFits(codec, s), 0, TupleOf(s.elems, x), v.tuple, items)
    ensures Spells(codec, s, x, v, text)
  {
    FitsSpellTuple(codec, s, TupleOf(s.elems, x), v.tuple, items);
  }

  /** A tuple, once its elements are known to be backed. */
  lemma TupleTextBack(read: (nat, string, Value) -> Result<Value>, fits: (nat, Value, Value, string) -> bool, t: string,
                      xs: seq<Value>, n: nat, v: Value) returns (items: seq<Item>)
    requires ConsumesAll(read) && PartsBacked(read, fits, |xs|)
    requires t != [] && ReadTuple(TupleTurns(true, read), t, xs) == Ok(n, v)
    ensures v.TupleV? && Prefix(t, n, ListText(items, "")) && FitFrom(fits, 0, xs, v.tuple, items)
  {
    TupleInverse(TupleTurns(true, read), t, xs, n, v);
    items := PartsBack(read, fits, 0, t[1..], xs, n - 1, v.tuple);
    Opened(t, n, Items(items, 0, ""));
  }

  lemma {:induction false} TupleBack(codec: Codec, s: Schema, t: string, x: Value, n: nat, v: Value)
    requires Lawful(codec) && s.TupleS? && t != [] && ReadToken(true, codec, s, t, x) == Ok(n, v)
    ensures n <= |t| && Spells(codec, s, x, v, t[..n])
    decreases s, 1
  {
    TokenComposite(codec, s, t, x);
    PartReaderBacked(codec, s);
    var items := TupleTextBack(PartReader(true, codec, s), PartFits(codec, s), t, TupleOf(s.elems, x), n, v);
    TupleTextSpells(codec, s, x, v, t[..n], items);
  }

  // ----------------------------------------------------------------- records

  lemma {:induction false} FieldsShift(fields: seq<Field>, i: nat, rest: string)
    requires fields != [] && i + 1 < |fields|
    ensures Fields(fields, i + 1, rest) == Fields(fields[1..], i, rest)
    decreases |fields| - i
  {
    if i + 2 < |fields| { FieldsShift(fields, i + 1, rest); }
  }

  lemma FirstField(fields: seq<Field>)
    requires fields != []
    ensures Fields(fields, 0, "") ==
      KeyText(fields[0]) + Padded(fields[0].item, Separator(0, |fields|, '}'), BehindField(fields, 0, ""))
  {
  }

  lemma BehindFirstField(fields: seq<Field>)
    requires fields != []
    ensures BehindField(fields, 0, "") == if |fields| == 1 then "" else Fields(fields[1..], 0, "")
  {
    if 1 < |fields| { FieldsShift(fields, 0, ""); }
  }

  lemma FieldsUnfold(fields: seq<Field>)
    requires fields != []
    ensures Fields(fields, 0, "") ==
      KeyText(fields[0]) + Padded(fields[0].item, Separator(0, |fields|, '}'),
                                  if |fields| == 1 then "" else Fields(fields[1..], 0, ""))
  {
    FirstField(fields);
    BehindFirstField(fields);
  }

  lemma OneFieldMore(t: string, n: nat, m: nat, f: Field, fields: seq<Field>)
    requires n + m <= |t| && t[..n] == KeyText(f) + Padded(f.item, ',', "")
    requires fields != [] && t[n..][..m] == Fields(fields, 0, "")
    ensures t[..n + m] == Fields([f] + fields, 0, "")
  {
    var w := Fields(fields, 0, "");
    FieldsUnfold([f] + fields);
    assert ([f] + fields)[1..] == fields;
    PaddedFront(f.item, ',', w);
    Assoc(KeyText(f), Padded(f.item, ',', ""), w);
    assert t[..n + m] == t[..n] + t[n..][..m];
  }

  lemma LastField(f: Field)
    ensures Fields([f], 0, "") == KeyText(f) + Padded(f.item, '}', "")
  {
    FieldsUnfold([f]);
  }

  lemma MemberInverse(read: (nat, string, Value) -> Result<Value>, keys: seq<string>, t: string, xs: seq<Value>, n: nat,
                      after: Turn) returns (k: nat, i: nat, m: nat, v: Value, q: nat)
    requires ConsumesAll(read) && |xs| == |keys| && MemberTurn(true, read, keys, t, xs) == Ok(n, after)
    ensures ReadKey(keys, t) == Ok(k, i) && k <= |t| && i < |xs|
    ensures read(i, t[k..], xs[i]) == Ok(m, v) && k + m <= |t| && after.parts == xs[i := v]
    ensures ReadSymbol(t[k + m..]) == Ok(q, if after.more then ',' else '}') && n == k + m + q
  {
    var key := ReadKey(keys, t);
    k, i := key.n, key.value;
    var r := read(i, t[k..], xs[i]);
    m, v := r.n, r.value;
    var c;
    q, c := AfterPartInverse(t, k + m, '}', n, after.more);
  }

  /** A member's value behind its key. */
  lemma FieldBack(read: (nat, string, Value) -> Result<Value>, fits: (nat, Value, Value, string) -> bool, l: nat,
                  i: nat, t: string, x: Value, m: nat, v: Value, q: nat, c: char) returns (item: Item)
    requires PartsBacked(read, fits, l) && i < l
    requires read(i, t, x) == Ok(m, v) && m <= |t| && ReadSymbol(t[m..]) == Ok(q, c)
    ensures Spaced(item) && fits(i, x, v, item.text) && Prefix(t, m + q, Padded(item, c, ""))
  {
    var before, text :| Blank(before) && Prefix(t, m, before + text) && fits(i, x, v, text);
    item := ItemBack(t, m, q, c, before, text);
  }

  /** The field fits the one member that changes. */
  ghost predicate FieldFits(fits: (nat, Value, Value, string) -> bool, keys: seq<string>, f: Field, now: seq<Value>,
                            next: seq<Value>) {
    |now| == |next| == |keys| && FieldSpaced(f) &&
    match Find(keys, f.key)
    case Some(i) => next == now[i := next[i]] && fits(i, now[i], next[i], f.item.text)
    case None => false
  }

  ghost predicate FieldsFit(fits: (nat, Value, Value, string) -> bool, keys: seq<string>, xs: seq<Value>,
                            vs: seq<Value>, fields: seq<Field>, parts: seq<seq<Value>>) {
    && fields != [] && |parts| == |fields| + 1 && parts[0] == xs && parts[|fields|] == vs
    && forall j :: 0 <= j < |fields| ==> FieldFits(fits, keys, fields[j], parts[j], parts[j + 1])
  }

  /** One member: its key and its value. */
  lemma MemberBack(read: (nat, string, Value) -> Result<Value>, fits: (nat, Value, Value, string) -> bool,
                   keys: seq<string>, t: string, xs: seq<Value>, n: nat, after: Turn) returns (f: Field)
    requires ConsumesAll(read) && PartsBacked(read, fits, |xs|) && |xs| == |keys|
    requires MemberTurn(true, read, keys, t, xs) == Ok(n, after)
    ensures FieldFits(fits, keys, f, xs, after.parts)
    ensures Prefix(t, n, KeyText(f) + Padded(f.item, if after.more then ',' else '}', ""))
  {
    var k, i, m, v, q := MemberInverse(read, keys, t, xs, n, after);
    var front := KeyBack(keys, t, k, i);
    var c := if after.more then ',' else '}';
    Further(t, k, m);
    var item := FieldBack(read, fits, |xs|, i, t[k..], xs[i], m, v, q, c);
    f := front.(item := item);
    FrontAndBack(t, k, m + q, KeyText(f), Padded(item, c, ""));
  }

  lemma FrontAndBack(t: string, k: nat, n: nat, front: string, back: string)
    requires k + n <= |t| && t[..k] == front && Prefix(t[k..], n, back)
    ensures Prefix(t, k + n, front + back)
  {
    assert t[..k + n] == t[..k] + t[k..][..n];
  }

  /** The first of the members read, and the turns that remain. */
  lemma FirstMemberBack(read: (nat, string, Value) -> Result<Value>, fits: (nat, Value, Value, string) -> bool,
                        keys: seq<string>, i: nat, t: string, xs: seq<Value>, n: nat, vs: seq<Value>)
      returns (k: nat, more: bool, now: seq<Value>, f: Field)
    requires ConsumesAll(read) && PartsBacked(read, fits, |xs|) && |xs| == |keys|
    requires Turns(MemberTurns(true, read, keys), i, t, xs) == Ok(n, vs)
    ensures FieldFits(fits, keys, f, xs, now) && |now| == |xs| && 0 < k <= n && k <= |t|
    ensures Prefix(t, k, KeyText(f) + Padded(f.item, if more then ',' else '}', ""))
    ensures if more then Turns(MemberTurns(true, read, keys), i + 1, t[k..], now) == Ok(n - k, vs)
            else n == k && vs == now
  {
    var after;
    k, after := TurnsInverse(MemberTurns(true, read, keys), i, t, xs, n, vs);
    more, now := after.more, after.parts;
    f := MemberBack(read, fits, keys, t, xs, k, after);
  }

  /** The first n bytes of t are the fields, which fit. */
  ghost predicate MembersRead(fits: (nat, Value, Value, string) -> bool, keys: seq<string>, t: string, n: nat,
                              xs: seq<Value>, vs: seq<Value>, fields: seq<Field>, parts: seq<seq<Value>>) {
    FieldsFit(fits, keys, xs, vs, fields, parts) && Prefix(t, n, Fields(fields, 0, ""))
  }

  lemma MembersMore(fits: (nat, Value, Value, string) -> bool, keys: seq<string>, t: string, k: nat, n: nat,
                    xs: seq<Value>, now: seq<Value>, vs: seq<Value>, f: Field, rest: seq<Field>, later: seq<seq<Value>>)
    requires FieldFits(fits, keys, f, xs, now) && k <= n && k <= |t|
    requires Prefix(t, k, KeyText(f) + Padded(f.item, ',', ""))
    requires MembersRead(fits, keys, t[k..], n - k, now, vs, rest, later)
    ensures MembersRead(fits, keys, t, n, xs, vs, [f] + rest, [xs] + later)
  {
    OneFieldMore(t, k, n - k, f, rest);
    RecordGrows(fits, keys, xs, now, vs, f, rest, later);
  }

  lemma MembersLast(fits: (nat, Value, Value, string) -> bool, keys: seq<string>, t: string, n: nat, xs: seq<Value>,
                    vs: seq<Value>, f: Field)
    requires FieldFits(fits, keys, f, xs, vs) && Prefix(t, n, KeyText(f) + Padded(f.item, '}', ""))
    ensures MembersRead(fits, keys, t, n, xs, vs, [f], [xs, vs])
  {
    LastField(f);
  }

  lemma {:induction false} MembersBack(read: (nat, string, Value) -> Result<Value>,
                                       fits: (nat, Value, Value, string) -> bool, keys: seq<string>, i: nat, t: string,
                                       xs: seq<Value>, n: nat, vs: seq<Value>)
      returns (fields: seq<Field>, parts: seq<seq<Value>>)
    requires ConsumesAll(read) && PartsBacked(read, fits, |xs|) && |xs| == |keys|
    requires Turns(MemberTurns(true, read, keys), i, t, xs) == Ok(n, vs)
    ensures MembersRead(fits, keys, t, n, xs, vs, fields, parts)
    decreases |t|
  {
    var k, more, now, f := FirstMemberBack(read, fits, keys, i, t, xs, n, vs);
    if more {
      var rest, later := MembersBack(read, fits, keys, i + 1, t[k..], now, n - k, vs);
      MembersMore(fits, keys, t, k, n, xs, now, vs, f, rest, later);
      fields, parts := [f] + rest, [xs] + later;
    } else {
      MembersLast(fits, keys, t, n, xs, vs, f);
      fields, parts := [f], [xs, vs];
    }
  }

  lemma RecordGrows(fits: (nat, Value, Value, string) -> bool, keys: seq<string>, xs: seq<Value>, now: seq<Value>,
                    vs: seq<Value>, f: Field, fields: seq<Field>, parts: seq<seq<Value>>)
    requires FieldFits(fits, keys, f, xs, now) && FieldsFit(fits, keys, now, vs, fields, parts)
    ensures FieldsFit(fits, keys, xs, vs, [f] + fields, [xs] + parts)
  {
    forall j | 0 <= j < |fields| + 1
      ensures FieldFits(fits, keys, ([f] + fields)[j], ([xs] + parts)[j], ([xs] + parts)[j + 1])
    {
      if 0 < j { assert FieldFits(fits, keys, fields[j - 1], parts[j - 1], parts[j]); }
    }
  }

  lemma FitsSpellRecord(codec: Codec, s: Schema, xs: seq<Value>, vs: seq<Value>, fields: seq<Field>,
                        parts: seq<seq<Value>>)
    requires s.RecordS? && FieldsFit(PartFits(codec, s), KeysOf(s.members), xs, vs, fields, parts)
    ensures SpellsRecord(codec, s, xs, vs, fields, parts)
  {
    forall j | 0 <= j < |fields|
      ensures FieldSpaced(fields[j]) && Assigns(codec, s, fields[j], parts[j], parts[j + 1])
    {
      assert FieldFits(PartFits(codec, s), KeysOf(s.members), fields[j], parts[j], parts[j + 1]);
    }
  }

  lemma RecordInverse(turn: (nat, string, seq<Value>) -> Result<Turn>, t: string, xs: seq<Value>, n: nat, v: Value)
    requires Moves(turn) && t != [] && ReadRecord(turn, t, xs) == Ok(n, v)
    ensures v.RecordV? && t[0] == '{' && 1 <= n && Turns(turn, 0, t[1..], xs) == Ok(n - 1, v.record)
  {
  }

  lemma RecordTextSpells(codec: Codec, s: Schema, x: Value, v: Value, text: string, fields: seq<Field>,
                         parts: seq<seq<Value>>)
    requires s.RecordS? && v.RecordV? && text == RecordText(fields)
    requires FieldsFit(PartFits(codec, s), KeysOf(s.members), RecordOf(s.members, x), v.record, fields, parts)
    ensures Spells(codec, s, x, v, text)
  {
    FitsSpellRecord(codec, s, RecordOf(s.members, x), v.record, fields, parts);
  }

  /** A record, once its members are known to be backed. */
  lemma RecordTextBack(read: (nat, string, Value) -> Result<Value>, fits: (nat, Value, Value, string) -> bool,
                       keys: seq<string>, t: string, xs: seq<Value>, n: nat, v: Value)
      returns (fields: seq<Field>, parts: seq<seq<Value>>)
    requires ConsumesAll(read) && PartsBacked(read, fits, |xs|) && |xs| == |keys|
    requires t != [] && ReadRecord(MemberTurns(true, read, keys), t, xs) == Ok(n, v)
    ensures v.RecordV? && Prefix(t, n, RecordText(fields)) && FieldsFit(fits, keys, xs, v.record, fields, parts)
  {
    RecordInverse(MemberTurns(true, read, keys), t, xs, n, v);
    fields, parts := MembersBack(read, fits, keys, 0, t[1..], xs, n - 1, v.record);
    Opened(t, n, Fields(fields, 0, ""));
  }

  lemma {:induction false} RecordBack(codec: Codec, s: Schema, t: string, x: Value, n: nat, v: Value)
    requires Lawful(codec) && s.RecordS? && t != [] && ReadToken(true, codec, s, t, x) == Ok(n, v)
    ensures n <= |t| && Spells(codec, s, x, v, t[..n])
    decreases s, 1
  {
    var keys, xs := KeysOf(s.members), RecordOf(s.members, x);
    TokenComposite(codec, s, t, x);
    PartReaderBacked(codec, s);
    var fields, parts := RecordTextBack(PartReader(true, codec, s), PartFits(codec, s), keys, t, xs, n, v);
    RecordTextSpells(codec, s, x, v, t[..n], fields, parts);
  }

  // ----------------------------------------------------------- both directions

  lemma SpelledIsAccepted(codec: Codec, s: Schema, t: string, x: Value, n: nat, v: Value, before: string, text: string)
    requires Lawful(codec) && !s.NumberS? && Blank(before) && Prefix(t, n, before + text)
    requires Spells(codec, s, x, v, text)
    ensures ReadValue(true, codec, s, t, x) == Ok(n, v)
  {
    Assoc(before, text, t[n..]);
    assert t == before + (text + t[n..]);
    ReadsValue(true, codec, s, x, v, before, text, t[n..]);
  }

  /** Exactly the texts of a value, behind blanks and before anything else, are what
      the strict reader accepts, and as that value. */
  lemma StrictExactly(codec: Codec, s: Schema, t: string, x: Value, n: nat, v: Value)
    requires Lawful(codec) && !s.NumberS?
    ensures ReadValue(true, codec, s, t, x) == Ok(n, v) <==> Front(codec, s, x, v, t, n)
  {
    if Front(codec, s, x, v, t, n) {
      var fits := Texts(codec, s, x);
      var before, text :| Blank(before) && Prefix(t, n, before + text) && fits(v, text);
      SpelledIsAccepted(codec, s, t, x, n, v, before, text);
    }
    if ReadValue(true, codec, s, t, x) == Ok(n, v) {
      AcceptedIsSpelled(codec, s, t, x, n, v);
    }
  }
}
