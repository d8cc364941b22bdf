/** When the JSON reader's acceptance means that the text is complete. */
module JsonStrict {

  import opened Wrappers
  import opened LookupTables
  import opened JsonTypes
  import opened JsonReader
  import opened JsonText

  // A strict reader is the same but for one case: a value inside a list, a tuple or a
  // record that ends the text is an error, where the program takes the whole for read.

  // ---------------------------------------------------- strict against lenient

  /** What the strict reader reads the lenient one reads too; and the other way round
      if text is left. */
  ghost predicate Agree<T>(strict: Result<T>, lenient: Result<T>, length: nat) {
    (strict.Ok? ==> lenient == strict) && (lenient.Ok? && lenient.n < length ==> strict == lenient)
  }

  /** The same for one turn, where going on means that text was left behind the value. */
  ghost predicate AgreeTurn(strict: Result<Turn>, lenient: Result<Turn>, length: nat) {
    && (strict.Ok? ==> lenient == strict)
    && (lenient.Ok? && (lenient.n < length || lenient.value.more) ==> strict == lenient)
  }

  lemma ElementAgrees(readS: string -> Result<Value>, readL: string -> Result<Value>, t: string, list: seq<Value>)
    requires Consumes(readS) && Consumes(readL) && Agree(readS(t), readL(t), |t|)
    ensures AgreeTurn(ElementTurn(true, readS, t, list), ElementTurn(false, readL, t, list), |t|)
  {
  }

  lemma PartAgrees(readS: (nat, string, Value) -> Result<Value>, readL: (nat, string, Value) -> Result<Value>, i: nat,
                   t: string, xs: seq<Value>)
    requires ConsumesAll(readS) && ConsumesAll(readL)
    requires i < |xs| ==> Agree(readS(i, t, xs[i]), readL(i, t, xs[i]), |t|)
    ensures AgreeTurn(TupleTurn(true, readS, i, t, xs), TupleTurn(false, readL, i, t, xs), |t|)
  {
  }

  lemma ValueAgrees(readS: (nat, string, Value) -> Result<Value>, readL: (nat, string, Value) -> Result<Value>,
                    t: string, k: nat, i: nat, xs: seq<Value>)
    requires ConsumesAll(readS) && ConsumesAll(readL) && k <= |t|
    requires i < |xs| ==> Agree(readS(i, t[k..], xs[i]), readL(i, t[k..], xs[i]), |t| - k)
    ensures AgreeTurn(MemberValue(true, readS, t, k, i, xs), MemberValue(false, readL, t, k, i, xs), |t|)
  {
  }

  lemma MemberAgrees(readS: (nat, string, Value) -> Result<Value>, readL: (nat, string, Value) -> Result<Value>,
                     keys: seq<string>, t: string, xs: seq<Value>)
    requires ConsumesAll(readS) && ConsumesAll(readL)
    requires forall i, u, x :: Agree(readS(i, u, x), readL(i, u, x), |u|)
    ensures AgreeTurn(MemberTurn(true, readS, keys, t, xs), MemberTurn(false, readL, keys, t, xs), |t|)
  {
    var key := ReadKey(keys, t);
    if key.Ok? { ValueAgrees(readS, readL, t, key.n, key.value, xs); }
  }

  ghost predicate AgreeTurns(turnS: (nat, string, seq<Value>) -> Result<Turn>,
                             turnL: (nat, string, seq<Value>) -> Result<Turn>) {
    Moves(turnS) && Moves(turnL) && forall i, t, parts :: AgreeTurn(turnS(i, t, parts), turnL(i, t, parts), |t|)
  }

  lemma {:induction false} TurnsAgree(turnS: (nat, string, seq<Value>) -> Result<Turn>,
                                      turnL: (nat, string, seq<Value>) -> Result<Turn>, i: nat, t: string,
                                      parts: seq<Value>)
    requires AgreeTurns(turnS, turnL)
    ensures Agree(Turns(turnS, i, t, parts), Turns(turnL, i, t, parts), |t|)
    decreases |t|
  {
    var one := turnL(i, t, parts);
    assert AgreeTurn(turnS(i, t, parts), one, |t|);
    if one.Ok? && one.value.more { TurnsAgree(turnS, turnL, i + 1, t[one.n..], one.value.parts); }
  }

  lemma ListAgrees(turnS: (nat, string, seq<Value>) -> Result<Turn>, turnL: (nat, string, seq<Value>) -> Result<Turn>,
                   t: string, list: seq<Value>)
    requires AgreeTurns(turnS, turnL) && t != []
    ensures Agree(ReadList(turnS, t, list), ReadList(turnL, t, list), |t|)
  {
    var space := SkipWhitespace(t[1..]);
    if t[0] == '[' && space.Ok? { TurnsAgree(turnS, turnL, 0, t[1 + space.n..], list); }
  }

  lemma TupleAgrees(turnS: (nat, string, seq<Value>) -> Result<Turn>, turnL: (nat, string, seq<Value>) -> Result<Turn>,
                    t: string, xs: seq<Value>)
    requires AgreeTurns(turnS, turnL) && t != []
    ensures Agree(ReadTuple(turnS, t, xs), ReadTuple(turnL, t, xs), |t|)
    ensures Agree(ReadRecord(turnS, t, xs), ReadRecord(turnL, t, xs), |t|)
  {
    TurnsAgree(turnS, turnL, 0, t[1..], xs);
  }

  lemma {:induction false} TokenAgrees(codec: Codec, s: Schema, t: string, x: Value)
    requires t != []
    ensures Agree(ReadToken(true, codec, s, t, x), ReadToken(false, codec, s, t, x), |t|)
    decreases s, 1, 1
  {
    if Composite(s) { CompositeAgrees(codec, s, t, x); }
  }

  /** Strict reading implies reading, and reading with text left implies strict reading. */
  lemma {:induction false} ValuesAgree(codec: Codec, s: Schema, t: string, x: Value)
    ensures Agree(ReadValue(true, codec, s, t, x), ReadValue(false, codec, s, t, x), |t|)
    decreases s, 2
  {
    var space := SkipWhitespace(t);
    if space.Ok? {
      ValueUnfolds(true, codec, s, t, x, space.n, t[space.n..]);
      ValueUnfolds(false, codec, s, t, x, space.n, t[space.n..]);
      TokenAgrees(codec, s, t[space.n..], x);
    }
  }

  lemma {:induction false} CompositeAgrees(codec: Codec, s: Schema, t: string, x: Value)
    requires t != [] && Composite(s)
    ensures Agree(ReadComposite(true, codec, s, t, x), ReadComposite(false, codec, s, t, x), |t|)
    decreases s, 1, 0
  {
    match s
    case ListS(e) =>
      ElementsAgree(codec, e);
      ListAgrees(ElementTurns(true, ElementReader(true, codec, e)), ElementTurns(false, ElementReader(false, codec, e)),
        t, ListOf(x));
    case TupleS(es) =>
      PartsAgree(codec, s);
      TupleAgrees(TupleTurns(true, PartReader(true, codec, s)), TupleTurns(false, PartReader(false, codec, s)), t,
        TupleOf(es, x));
    case RecordS(ms) =>
      MembersAgree(codec, s, KeysOf(ms));
      TupleAgrees(MemberTurns(true, PartReader(true, codec, s), KeysOf(ms)),
        MemberTurns(false, PartReader(false, codec, s), KeysOf(ms)),
                  t, RecordOf(ms, x));
  }

  lemma {:induction false} ElementsAgree(codec: Codec, e: Schema)
    ensures AgreeTurns(ElementTurns(true, ElementReader(true, codec, e)),
      ElementTurns(false, ElementReader(false, codec, e)))
    decreases e, 3
  {
    var readS, readL := ElementReader(true, codec, e), ElementReader(false, codec, e);
    forall i: nat, t: string, list: seq<Value>
      ensures AgreeTurn(ElementTurns(true, readS)(i, t, list), ElementTurns(false, readL)(i, t, list), |t|)
    {
      ValuesAgree(codec, e, t, Default(e));
      ElementAgrees(readS, readL, t, list);
    }
  }

  lemma {:induction false} ReadersAgree(codec: Codec, s: Schema, i: nat, t: string, x: Value)
    requires s.TupleS? || s.RecordS?
    ensures Agree(PartReader(true, codec, s)(i, t, x), PartReader(false, codec, s)(i, t, x), |t|)
    decreases s, 0, 0
  {
    if i < PartCount(s) { ValuesAgree(codec, Part(s, i), t, x); }
  }

  lemma {:induction false} PartsAgree(codec: Codec, s: Schema)
    requires s.TupleS?
    ensures AgreeTurns(TupleTurns(true, PartReader(true, codec, s)), TupleTurns(false, PartReader(false, codec, s)))
    decreases s, 0, 1
  {
    var readS, readL := PartReader(true, codec, s), PartReader(false, codec, s);
    forall i: nat, t: string, xs: seq<Value>
      ensures AgreeTurn(TupleTurns(true, readS)(i, t, xs), TupleTurns(false, readL)(i, t, xs), |t|)
    {
      if i < |xs| { ReadersAgree(codec, s, i, t, xs[i]); }
      PartAgrees(readS, readL, i, t, xs);
    }
  }

  lemma {:induction false} MembersAgree(codec: Codec, s: Schema, keys: seq<string>)
    requires s.RecordS?
    ensures AgreeTurns(MemberTurns(true, PartReader(true, codec, s), keys),
      MemberTurns(false, PartReader(false, codec, s), keys))
    decreases s, 0, 1
  {
    var readS, readL := PartReader(true, codec, s), PartReader(false, codec, s);
    forall i, t, x ensures Agree(readS(i, t, x), readL(i, t, x), |t|) { ReadersAgree(codec, s, i, t, x); }
    forall i: nat, t: string, xs: seq<Value>
      ensures AgreeTurn(MemberTurns(true, readS, keys)(i, t, xs), MemberTurns(false, readL, keys)(i, t, xs), |t|)
    {
      MemberAgrees(readS, readL, keys, t, xs);
    }
  }

  // -------------------------------------------- strict against a blank behind it

  // Behind a blank no value ends the text, so every reader is strict there; and the
  // blank is neither taken nor looked at.

  lemma {:induction false} FindTokenPad(t: string, i: nat, c: char)
    requires i <= |t| && c <= ' '
    ensures FindToken(t + [c], i) == if FindToken(t, i) == |t| then |t| + 1 else FindToken(t, i)
    decreases |t| - i
  {
    if i < |t| && t[i] <= ' ' { FindTokenPad(t, i + 1, c); }
  }

  lemma SkipPad(t: string, c: char)
    requires c <= ' '
    ensures SkipWhitespace(t + [c]) == SkipWhitespace(t)
  {
    FindTokenPad(t, 0, c);
  }

  lemma SymbolPad(t: string, c: char)
    requires c <= ' '
    ensures ReadSymbol(t + [c]) == ReadSymbol(t)
  {
    SkipPad(t, c);
  }

  lemma {:induction false} FindQuotePad(t: string, i: nat, c: char)
    requires i <= |t| && c <= ' '
    ensures FindQuote(t + [c], i) == if FindQuote(t, i) == |t| then |t| + 1 else FindQuote(t, i)
    decreases |t| - i
  {
    if i < |t| && t[i] != '"' { FindQuotePad(t, i + 1, c); }
  }

  lemma {:induction false} StringFromPad(t: string, i: nat, c: char)
    requires t != [] && t[0] == '"' && 0 < i <= |t| && c <= ' '
    ensures ReadStringFrom(t + [c], i) == ReadStringFrom(t, i)
    decreases |t| - i
  {
    var j := FindQuote(t, i);
    FindQuotePad(t, i, c);
    if j < |t| {
      assert (t + [c])[1..j] == t[1..j];
      assert QuoteAt(t + [c], j) == QuoteAt(t, j);
      if QuoteAt(t, j) == Escaped { StringFromPad(t, j + 1, c); }
    }
  }

  lemma StringPad(t: string, c: char)
    requires t != [] && c <= ' '
    ensures ReadString(t + [c]) == ReadString(t)
  {
    if t[0] == '"' { StringFromPad(t, 1, c); }
  }

  lemma Shifted(t: string, n: nat, c: char)
    requires n <= |t|
    ensures (t + [c])[n..] == t[n..] + [c]
  {
  }

  lemma NamePad(keys: seq<string>, t: string, n: nat, c: char)
    requires n < |t| && c <= ' '
    ensures ReadName(keys, t + [c], n) == ReadName(keys, t, n)
  {
    Shifted(t, n, c);
    StringPad(t[n..], c);
    var name := ReadString(t[n..]);
    if name.Ok? {
      Shifted(t, n + name.n + 1, c);
      SymbolPad(t[n + name.n + 1..], c);
    }
  }

  lemma KeyPad(keys: seq<string>, t: string, c: char)
    requires c <= ' '
    ensures ReadKey(keys, t + [c]) == ReadKey(keys, t)
  {
    SkipPad(t, c);
    var space := SkipWhitespace(t);
    if space.Ok? { NamePad(keys, t, space.n, c); }
  }

  lemma BehindPad(m: bool, t: string, n: nat, close: char, c: char)
    requires 0 < n <= |t| && c <= ' '
    ensures AfterPart(m, t + [c], n, close) == AfterPart(true, t, n, close)
  {
    Shifted(t, n, c);
    SymbolPad(t[n..], c);
  }

  lemma ElementBehindPad(m: bool, t: string, n: nat, last: bool, c: char)
    requires 0 < n <= |t| && c <= ' '
    ensures AfterElement(m, t + [c], n, last) == AfterElement(true, t, n, last)
  {
    Shifted(t, n, c);
    SymbolPad(t[n..], c);
  }

  lemma ElementPad(m: bool, readS: string -> Result<Value>, read: string -> Result<Value>, t: string, list: seq<Value>,
                   c: char)
    requires Consumes(readS) && Consumes(read) && read(t + [c]) == readS(t) && c <= ' '
    ensures ElementTurn(m, read, t + [c], list) == ElementTurn(true, readS, t, list)
  {
    var v := readS(t);
    if v.Ok? { BehindPad(m, t, v.n, ']', c); }
  }

  lemma PartPad(m: bool, readS: (nat, string, Value) -> Result<Value>, read: (nat, string, Value) -> Result<Value>,
                i: nat, t: string, xs: seq<Value>, c: char)
    requires ConsumesAll(readS) && ConsumesAll(read) && c <= ' '
    requires i < |xs| ==> read(i, t + [c], xs[i]) == readS(i, t, xs[i])
    ensures TupleTurn(m, read, i, t + [c], xs) == TupleTurn(true, readS, i, t, xs)
  {
    if i < |xs| {
      var v := readS(i, t, xs[i]);
      if v.Ok? { ElementBehindPad(m, t, v.n, i == |xs| - 1, c); }
    }
  }

  lemma ValuePad(m: bool, readS: (nat, string, Value) -> Result<Value>, read: (nat, string, Value) -> Result<Value>,
                 t: string, k: nat, i: nat, xs: seq<Value>, c: char)
    requires ConsumesAll(readS) && ConsumesAll(read) && k <= |t| && c <= ' '
    requires i < |xs| ==> read(i, t[k..] + [c], xs[i]) == readS(i, t[k..], xs[i])
    ensures MemberValue(m, read, t + [c], k, i, xs) == MemberValue(true, readS, t, k, i, xs)
  {
    Shifted(t, k, c);
    if i < |xs| {
      var v := readS(i, t[k..], xs[i]);
      if v.Ok? { BehindPad(m, t, k + v.n, '}', c); }
    }
  }

  lemma MemberPad(m: bool, readS: (nat, string, Value) -> Result<Value>, read: (nat, string, Value) -> Result<Value>,
                  keys: seq<string>, t: string, xs: seq<Value>, c: char)
    requires ConsumesAll(readS) && ConsumesAll(read) && c <= ' '
    requires forall i, u, x {:trigger readS(i, u, x)} :: read(i, u + [c], x) == readS(i, u, x)
    ensures MemberTurn(m, read, keys, t + [c], xs) == MemberTurn(true, readS, keys, t, xs)
  {
    KeyPad(keys, t, c);
    var key := ReadKey(keys, t);
    if key.Ok? { ValuePad(m, readS, read, t, key.n, key.value, xs, c); }
  }

  ghost predicate TurnsPad(turnS: (nat, string, seq<Value>) -> Result<Turn>,
                           turn: (nat, string, seq<Value>) -> Result<Turn>, c: char) {
    Moves(turnS) && Moves(turn) &&
    forall i, t, parts {:trigger turnS(i, t, parts)} :: turn(i, t + [c], parts) == turnS(i, t, parts)
  }

  lemma {:induction false} LoopPad(turnS: (nat, string, seq<Value>) -> Result<Turn>,
                                   turn: (nat, string, seq<Value>) -> Result<Turn>, i: nat, t: string,
                                   parts: seq<Value>, c: char)
    requires TurnsPad(turnS, turn, c)
    ensures Turns(turn, i, t + [c], parts) == Turns(turnS, i, t, parts)
    decreases |t|
  {
    var one := turnS(i, t, parts);
    if one.Ok? && one.value.more {
      Shifted(t, one.n, c);
      LoopPad(turnS, turn, i + 1, t[one.n..], one.value.parts, c);
    }
  }

  lemma ListPad(turnS: (nat, string, seq<Value>) -> Result<Turn>, turn: (nat, string, seq<Value>) -> Result<Turn>,
                t: string, list: seq<Value>, c: char)
    requires TurnsPad(turnS, turn, c) && t != [] && c <= ' '
    ensures ReadList(turn, t + [c], list) == ReadList(turnS, t, list)
  {
    Shifted(t, 1, c);
    SkipPad(t[1..], c);
    var space := SkipWhitespace(t[1..]);
    if space.Ok? {
      Shifted(t, 1 + space.n, c);
      LoopPad(turnS, turn, 0, t[1 + space.n..], list, c);
    }
  }

  lemma BracketPad(turnS: (nat, string, seq<Value>) -> Result<Turn>, turn: (nat, string, seq<Value>) -> Result<Turn>,
                   t: string, xs: seq<Value>, c: char)
    requires TurnsPad(turnS, turn, c) && t != [] && c <= ' '
    ensures ReadTuple(turn, t + [c], xs) == ReadTuple(turnS, t, xs)
    ensures ReadRecord(turn, t + [c], xs) == ReadRecord(turnS, t, xs)
  {
    Shifted(t, 1, c);
    LoopPad(turnS, turn, 0, t[1..], xs, c);
  }

  lemma BoolPad(t: string, c: char)
    requires c <= ' '
    ensures ReadBool(t + [c]) == ReadBool(t)
  {
    var u := t + [c];
    assert 4 <= |t| ==> u[..4] == t[..4];
    assert 5 <= |t| ==> u[..5] == t[..5];
    assert |t| == 3 ==> u[..4][3] == c;
    assert |t| == 4 ==> u[..5][4] == c;
  }

  lemma ScalarPad(codec: Codec, s: Schema, t: string, c: char)
    requires Lawful(codec) && t != [] && !Composite(s) && c <= ' '
    ensures ReadScalar(codec, s, t + [c]) == ReadScalar(codec, s, t)
  {
    match s
    case BoolS => BoolPad(t, c);
    case NumberS => assert codec.parse(t + [c]) == codec.parse(t);
    case StringS => StringPad(t, c);
    case EnumS(_) => StringPad(t, c);
  }

  /** Strict reading is reading, strictly or not, with a blank behind the text: the same
      value, place or error. */
  lemma {:induction false} StrictIsPadded(m: bool, codec: Codec, s: Schema, t: string, x: Value, c: char)
    requires Lawful(codec) && c <= ' '
    ensures ReadValue(m, codec, s, t + [c], x) == ReadValue(true, codec, s, t, x)
    decreases s, 2
  {
    SkipPad(t, c);
    var space := SkipWhitespace(t);
    if space.Ok? {
      Shifted(t, space.n, c);
      TokenPad(m, codec, s, t[space.n..], x, c);
    }
  }

  lemma {:induction false} TokenPad(m: bool, codec: Codec, s: Schema, t: string, x: Value, c: char)
    requires Lawful(codec) && t != [] && c <= ' '
    ensures ReadToken(m, codec, s, t + [c], x) == ReadToken(true, codec, s, t, x)
    decreases s, 1, 1
  {
    if Composite(s) { CompositePad(m, codec, s, t, x, c); } else { ScalarPad(codec, s, t, c); }
  }

  lemma {:induction false} CompositePad(m: bool, codec: Codec, s: Schema, t: string, x: Value, c: char)
    requires Lawful(codec) && t != [] && Composite(s) && c <= ' '
    ensures ReadComposite(m, codec, s, t + [c], x) == ReadComposite(true, codec, s, t, x)
    decreases s, 1, 0
  {
    match s
    case ListS(e) =>
      ElementsPad(m, codec, e, c);
      ListPad(ElementTurns(true, ElementReader(true, codec, e)), ElementTurns(m, ElementReader(m, codec, e)), t,
        ListOf(x), c);
    case TupleS(es) =>
      PartsPad(m, codec, s, c);
      BracketPad(TupleTurns(true, PartReader(true, codec, s)), TupleTurns(m, PartReader(m, codec, s)), t,
        TupleOf(es, x), c);
    case RecordS(ms) =>
      MembersPad(m, codec, s, KeysOf(ms), c);
      BracketPad(MemberTurns(true, PartReader(true, codec, s), KeysOf(ms)),
        MemberTurns(m, PartReader(m, codec, s), KeysOf(ms)),
                 t, RecordOf(ms, x), c);
  }

  lemma {:induction false} ElementsPad(m: bool, codec: Codec, e: Schema, c: char)
    requires Lawful(codec) && c <= ' '
    ensures TurnsPad(ElementTurns(true, ElementReader(true, codec, e)), ElementTurns(m, ElementReader(m, codec, e)), c)
    decreases e, 3
  {
    var readS, read := ElementReader(true, codec, e), ElementReader(m, codec, e);
    forall i: nat, t: string, list: seq<Value>
      ensures ElementTurns(m, read)(i, t + [c], list) == ElementTurns(true, readS)(i, t, list)
    {
      StrictIsPadded(m, codec, e, t, Default(e), c);
      ElementPad(m, readS, read, t, list, c);
    }
  }

  lemma {:induction false} ReaderPad(m: bool, codec: Codec, s: Schema, i: nat, t: string, x: Value, c: char)
    requires Lawful(codec) && (s.TupleS? || s.RecordS?) && c <= ' '
    ensures PartReader(m, codec, s)(i, t + [c], x) == PartReader(true, codec, s)(i, t, x)
    decreases s, 0, 0
  {
    if i < PartCount(s) { StrictIsPadded(m, codec, Part(s, i), t, x, c); }
  }

  lemma {:induction false} PartsPad(m: bool, codec: Codec, s: Schema, c: char)
    requires Lawful(codec) && s.TupleS? && c <= ' '
    ensures TurnsPad(TupleTurns(true, PartReader(true, codec, s)), TupleTurns(m, PartReader(m, codec, s)), c)
    decreases s, 0, 1
  {
    var readS, read := PartReader(true, codec, s), PartReader(m, codec, s);
    forall i: nat, t: string, xs: seq<Value>
      ensures TupleTurns(m, read)(i, t + [c], xs) == TupleTurns(true, readS)(i, t, xs)
    {
      if i < |xs| { ReaderPad(m, codec, s, i, t, xs[i], c); }
      PartPad(m, readS, read, i, t, xs, c);
    }
  }

  lemma {:induction false} MembersPad(m: bool, codec: Codec, s: Schema, keys: seq<string>, c: char)
    requires Lawful(codec) && s.RecordS? && c <= ' '
    ensures TurnsPad(MemberTurns(true, PartReader(true, codec, s), keys), MemberTurns(m, PartReader(m, codec, s), keys),
      c)
    decreases s, 0, 1
  {
    var readS, read := PartReader(true, codec, s), PartReader(m, codec, s);
    forall i, t, x ensures read(i, t + [c], x) == readS(i, t, x) { ReaderPad(m, codec, s, i, t, x, c); }
    forall i: nat, t: string, xs: seq<Value>
      ensures MemberTurns(m, read, keys)(i, t + [c], xs) == MemberTurns(true, readS, keys)(i, t, xs)
    {
      MemberPad(m, readS, read, keys, t, xs, c);
    }
  }

  // ------------------------------------------------------------ what follows

  /** A text is complete exactly if the program still accepts it with a blank behind it. */
  lemma CompleteExactly(codec: Codec, s: Schema, t: string, x: Value)
    requires Lawful(codec)
    ensures ReadValue(true, codec, s, t, x).Ok? <==> StructureJson(codec, s, t + " ", x).Some?
    ensures ReadValue(true, codec, s, t, x).Ok? ==>
      StructureJson(codec, s, t, x) == StructureJson(codec, s, t + " ", x) ==
        Some(ReadValue(true, codec, s, t, x).value)
  {
    StrictIsPadded(false, codec, s, t, x, ' ');
    ValuesAgree(codec, s, t, x);
  }

  /** On a text that ends in a blank, such as a line end, the program is strict. */
  lemma StrictBehindBlank(codec: Codec, s: Schema, t: string, x: Value)
    requires Lawful(codec) && t != [] && t[|t| - 1] <= ' '
    ensures ReadValue(false, codec, s, t, x) == ReadValue(true, codec, s, t, x)
  {
    var u, c := t[..|t| - 1], t[|t| - 1];
    assert u + [c] == t;
    StrictIsPadded(false, codec, s, u, x, c);
    StrictIsPadded(true, codec, s, u, x, c);
  }

  // ------------------------------------------------- a text that is not complete

  lemma FirstElement(turn: (nat, string, seq<Value>) -> Result<Turn>, w: string, list: seq<Value>)
    requires Moves(turn) && w != [] && w[0] > ' ' && w[0] != ']'
    ensures ReadList(turn, "[" + w, list) ==
      match Turns(turn, 0, w, list) case Err(e) => Err(e) case Ok(m, vs) => Ok(1 + m, ListV(vs))
  {
    var t := "[" + w;
    SkipsBlank("", w);
    assert "" + w == w && t[1..] == w;
  }

  /** A list that breaks off after an element is taken for complete, but not by the
      strict reader. */
  lemma BrokenList(strict: bool, read: string -> Result<Value>, turn: (nat, string, seq<Value>) -> Result<Turn>,
                   w: string, list: seq<Value>, v: Value)
    requires Consumes(read) && turn == ElementTurns(strict, read)
    requires w != [] && w[0] > ' ' && w[0] != ']' && read(w) == Ok(|w|, v)
    ensures ReadList(turn, "[" + w, list) == if strict then Err(UnexpectedEof) else Ok(1 + |w|, ListV(list + [v]))
  {
    FirstElement(turn, w, list);
    assert turn(0, w, list) == ElementTurn(strict, read, w, list);
  }

  lemma TokenFirst(strict: bool, codec: Codec, s: Schema, t: string, x: Value)
    requires t != [] && t[0] > ' '
    ensures ReadValue(strict, codec, s, t, x) == ReadToken(strict, codec, s, t, x)
  {
    assert "" + t == t && t[0..] == t;
    SkipsBlank("", t);
    var r := ReadToken(strict, codec, s, t, x);
    assert Advance(0, r) == r;
  }

  /** Every list that breaks off behind its first element, whatever that is, is accepted
      as the list of that element, and rejected by the strict reader. */
  lemma TruncatedListReads(codec: Codec, e: Schema, x: Value, v: Value, w: string)
    requires Lawful(codec) && Spells(codec, e, Default(e), v, w)
    ensures StructureJson(codec, ListS(e), "[" + w, x) == Some(ListV(ListOf(x) + [v]))
    ensures ReadValue(true, codec, ListS(e), "[" + w, x) == Err(UnexpectedEof)
  {
    forall strict: bool
      ensures ReadValue(strict, codec, ListS(e), "[" + w, x) ==
        if strict then Err(UnexpectedEof) else Ok(1 + |w|, ListV(ListOf(x) + [v]))
    {
      Alone(strict, codec, e, v, w);
      BrokenValue(strict, codec, e, x, v, w);
    }
  }

  /** A text alone reads as its value. */
  lemma Alone(strict: bool, codec: Codec, e: Schema, v: Value, w: string)
    requires Lawful(codec) && Spells(codec, e, Default(e), v, w)
    ensures w != [] && w[0] > ' ' && w[0] != ']'
    ensures ElementReader(strict, codec, e)(w) == Ok(|w|, v)
  {
    SpellsStarts(codec, e, Default(e), v, w);
    ReadsAlone(strict, codec, e, Default(e), v, w, "");
    Nothing(w);
    ElementReaderIs(strict, codec, e, w);
  }

  lemma ListComposite(strict: bool, codec: Codec, e: Schema, t: string, x: Value,
                      turn: (nat, string, seq<Value>) -> Result<Turn>, list: seq<Value>)
    requires t != [] && turn == ElementTurns(strict, ElementReader(strict, codec, e)) && list == ListOf(x)
    ensures ReadComposite(strict, codec, ListS(e), t, x) == ReadList(turn, t, list)
  {
  }

  lemma CompositeToken(strict: bool, codec: Codec, s: Schema, t: string, x: Value)
    requires t != [] && Composite(s)
    ensures ReadToken(strict, codec, s, t, x) == ReadComposite(strict, codec, s, t, x)
  {
  }

  lemma CompositeFirst(strict: bool, codec: Codec, s: Schema, t: string, x: Value, r: Result<Value>)
    requires t != [] && t[0] > ' ' && Composite(s) && ReadComposite(strict, codec, s, t, x) == r
    ensures ReadValue(strict, codec, s, t, x) == r
  {
    CompositeToken(strict, codec, s, t, x);
    TokenFirst(strict, codec, s, t, x);
  }

  lemma BrokenValue(strict: bool, codec: Codec, e: Schema, x: Value, v: Value, w: string)
    requires w != [] && w[0] > ' ' && w[0] != ']' && ElementReader(strict, codec, e)(w) == Ok(|w|, v)
    ensures ReadValue(strict, codec, ListS(e), "[" + w, x) ==
      if strict then Err(UnexpectedEof) else Ok(1 + |w|, ListV(ListOf(x) + [v]))
  {
    var turn := ElementTurns(strict, ElementReader(strict, codec, e));
    var r := if strict then Err(UnexpectedEof) else Ok(1 + |w|, ListV(ListOf(x) + [v]));
    BrokenList(strict, ElementReader(strict, codec, e), turn, w, ListOf(x), v);
    ListFirst(strict, codec, e, "[" + w, x, turn, r);
  }

  lemma ListFirst(strict: bool, codec: Codec, e: Schema, t: string, x: Value,
                  turn: (nat, string, seq<Value>) -> Result<Turn>, r: Result<Value>)
    requires turn == ElementTurns(strict, ElementReader(strict, codec, e))
    requires t != [] && t[0] > ' ' && ReadList(turn, t, ListOf(x)) == r
    ensures ReadValue(strict, codec, ListS(e), t, x) == r
  {
    ListComposite(strict, codec, e, t, x, turn, ListOf(x));
    CompositeFirst(strict, codec, ListS(e), t, x, r);
  }
}
