/** The JSON reader as it runs: loops and recursive calls that move a position through
    the text.  Each method computes the function of the remaining text it stands for.
    A loop keeps what is still to come equal to the whole: the result of the turns from
    its position on, advanced by the position, is the result asked for.  The lemmas in
    between unfold one turn at a time. */
module JsonScanner {

  import opened Wrappers
  import opened Strings
  import opened LookupTables
  import opened JsonTypes
  import opened JsonReader

  method SkipSpace(t: string, at: nat) returns (r: Result<()>)
    requires at <= |t|
    ensures r == Advance(at, SkipWhitespace(t[at..]))
  {
    if at == |t| { return Err(UnexpectedEof); }
    var size := at;
    if t[size] <= ' ' {
      size := size + 1;
      if size == |t| { return Err(UnexpectedEof); }
      while t[size] <= ' '
        invariant at <= size < |t| && FindToken(t[at..], 0) == FindToken(t[at..], size - at)
        decreases |t| - size
      {
        size := size + 1;
        if size == |t| { return Err(UnexpectedEof); }
      }
    }
    return Ok(size, ());
  }

  /** ful::find of a quote. */
  method FindNextQuote(t: string, at: nat, from: nat) returns (found: nat)
    requires at <= from <= |t|
    ensures from <= found <= |t| && found - at == FindQuote(t[at..], from - at)
  {
    found := from;
    while found < |t| && t[found] != '"'
      invariant from <= found <= |t| && FindQuote(t[at..], from - at) == FindQuote(t[at..], found - at)
    {
      found := found + 1;
    }
  }

  /** What a quote is can be told from the bytes before it. */
  lemma QuoteIs(t: string, at: nat, found: nat)
    requires at < found < |t| && t[at] == '"'
    ensures QuoteAt(t[at..], found - at) ==
      if t[found - 1] != '\\' then Closing
      else if t[found - 2] != '\\' then Escaped
      else if t[found - 3] != '\\' then Closing
      else if t[found - 4] != '\\' then Escaped
      else TooMany
  {
  }

  /** One turn of the loop: where the next quote stands decides how it goes on. */
  lemma StringTurn(t: string, at: nat, from: nat, found: nat)
    requires at < from <= found <= |t| && t[at] == '"' && found - at == FindQuote(t[at..], from - at)
    ensures Advance(at, ReadStringFrom(t[at..], from - at)) ==
      if found == |t| then Err(UnexpectedEof)
      else
        match QuoteAt(t[at..], found - at)
        case Closing => Ok(found, t[at + 1..found])
        case TooMany => Err(UnexpectedError)
        case Escaped => Advance(at, ReadStringFrom(t[at..], found + 1 - at))
  {
    if found < |t| { assert t[at..][1..found - at] == t[at + 1..found]; }
  }

  /** read_string: the loop goes on behind escaped quotes. */
  method ScanString(t: string, at: nat) returns (r: Result<string>)
    requires at < |t|
    ensures r == Advance(at, ReadString(t[at..]))
  {
    if t[at] != '"' { return Err(ExpectedString); }
    var size := at;
    ghost var whole := Advance(at, ReadString(t[at..]));
    while true
      invariant at <= size < |t| && whole == Advance(at, ReadStringFrom(t[at..], size + 1 - at))
      decreases |t| - size
    {
      var found := FindNextQuote(t, at, size + 1);
      StringTurn(t, at, size + 1, found);
      if found == |t| { return Err(UnexpectedEof); }
      size := found;
      QuoteIs(t, at, found);
      if t[found - 1] != '\\' { return Ok(size, t[at + 1..size]); }
      if t[found - 2] == '\\' {
        if t[found - 3] != '\\' { return Ok(size, t[at + 1..size]); }
        if t[found - 4] == '\\' { return Err(UnexpectedError); }
      }
    }
  }

  /** The next token is a single byte: the position behind it. */
  method ScanSymbol(t: string, at: nat) returns (r: Result<char>)
    requires at <= |t|
    ensures r == Advance(at, ReadSymbol(t[at..]))
  {
    var space := SkipSpace(t, at);
    match space
    case Err(e) => r := Err(e);
    case Ok(size, _) => r := Ok(size + 1, t[size]);
  }

  method ScanKey(keys: seq<string>, t: string, at: nat) returns (r: Result<nat>)
    requires at <= |t|
    ensures r == Advance(at, ReadKey(keys, t[at..]))
  {
    var space := SkipSpace(t, at);
    if space.Err? { return Err(space.error); }
    Further(t, at, space.n - at);
    r := ScanName(keys, t, at, space.n);
  }

  method ScanName(keys: seq<string>, t: string, at: nat, size: nat) returns (r: Result<nat>)
    requires at <= size < |t|
    ensures r == Advance(at, ReadName(keys, t[at..], size - at))
  {
    Further(t, at, size - at);
    var name := ScanString(t, size);
    if name.Err? { return Err(name.error); }
    var index := Find(keys, name.value);
    if index.None? { return Err(UnexpectedKey); }
    Further(t, at, name.n + 1 - at);
    var colon := ScanSymbol(t, name.n + 1);
    if colon.Err? { return Err(colon.error); }
    if colon.value != ':' { return Err(UnexpectedSymbol); }
    return Ok(colon.n, index.value);
  }

  /** Behind a value: a comma, the closing symbol, or the end of the text. */
  method ScanAfter(t: string, at: nat, size: nat, close: char) returns (r: Result<bool>)
    requires at < size <= |t|
    ensures r == Advance(at, AfterPart(false, t[at..], size - at, close))
  {
    if size == |t| { return Ok(size, false); }
    Further(t, at, size - at);
    var symbol := ScanSymbol(t, size);
    if symbol.Err? { return Err(symbol.error); }
    if symbol.value == ',' { return Ok(symbol.n, true); }
    if symbol.value == close { return Ok(symbol.n, false); }
    return Err(UnexpectedSymbol);
  }

  method ScanAfterElement(t: string, at: nat, size: nat, last: bool) returns (r: Result<bool>)
    requires at < size <= |t|
    ensures r == Advance(at, AfterElement(false, t[at..], size - at, last))
  {
    if size == |t| { return Ok(size, false); }
    Further(t, at, size - at);
    var symbol := ScanSymbol(t, size);
    if symbol.Err? { return Err(symbol.error); }
    if last {
      if symbol.value == ']' { return Ok(symbol.n, false); }
      return Err(ExpectedLess);
    }
    if symbol.value == ',' { return Ok(symbol.n, true); }
    return Err(ExpectedMore);
  }

  lemma AdvanceTwice<T>(a: nat, b: nat, r: Result<T>)
    ensures Advance(a, Advance(b, r)) == Advance(a + b, r)
  {
  }

  lemma TokenIs(codec: Codec, s: Schema, t: string, at: nat, x: Value, size: nat)
    requires at <= size < |t| && SkipWhitespace(t[at..]) == Ok(size - at, ())
    ensures Advance(at, ReadValue(false, codec, s, t[at..], x)) ==
      Advance(size, ReadToken(false, codec, s, t[size..], x))
  {
    Further(t, at, size - at);
    ValueUnfolds(false, codec, s, t[at..], x, size - at, t[size..]);
    AdvanceTwice(at, size - at, ReadToken(false, codec, s, t[size..], x));
  }

  /** read_value. */
  method ScanValue(codec: Codec, s: Schema, t: string, at: nat, x: Value) returns (r: Result<Value>)
    requires at <= |t|
    ensures r == Advance(at, ReadValue(false, codec, s, t[at..], x))
    decreases s, 4
  {
    var space := SkipSpace(t, at);
    if space.Err? { return Err(space.error); }
    TokenIs(codec, s, t, at, x, space.n);
    r := ScanToken(codec, s, t, space.n, x);
  }

  method ScanToken(codec: Codec, s: Schema, t: string, at: nat, x: Value) returns (r: Result<Value>)
    requires at < |t|
    ensures r == Advance(at, ReadToken(false, codec, s, t[at..], x))
    decreases s, 3, 1
  {
    if Composite(s) {
      r := ScanComposite(codec, s, t, at, x);
    } else {
      r := ScanScalar(codec, s, t, at);
    }
  }

  method ScanScalar(codec: Codec, s: Schema, t: string, at: nat) returns (r: Result<Value>)
    requires at < |t| && !Composite(s)
    ensures r == Advance(at, ReadScalar(codec, s, t[at..]))
  {
    match s
    case BoolS => r := Advance(at, ReadBool(t[at..]));
    case NumberS => r := Advance(at, ReadNumber(codec, t[at..]));
    case StringS =>
      var text := ScanString(t, at);
      if text.Err? { return Err(text.error); }
      r := Ok(text.n + 1, StringV(text.value));
    case EnumS(table) =>
      var name := ScanString(t, at);
      if name.Err? { return Err(name.error); }
      match ValueOf(table, name.value) {
        case Some(v) => r := Ok(name.n + 1, EnumV(v));
        case None => r := Err(UnexpectedValue);
      }
  }

  method ScanComposite(codec: Codec, s: Schema, t: string, at: nat, x: Value) returns (r: Result<Value>)
    requires at < |t| && Composite(s)
    ensures r == Advance(at, ReadComposite(false, codec, s, t[at..], x))
    decreases s, 3, 0
  {
    match s
    case ListS(e) => r := ScanList(codec, e, t, at, ListOf(x));
    case TupleS(es) => r := ScanTuple(codec, s, t, at, TupleOf(es, x));
    case RecordS(ms) => r := ScanRecord(codec, s, KeysOf(ms), t, at, RecordOf(ms, x));
  }

  lemma ElementIs(read: string -> Result<Value>, t: string, at: nat, list: seq<Value>, v: Result<Value>)
    requires Consumes(read) && at <= |t| && v == Advance(at, read(t[at..]))
    ensures v.Ok? ==> at < v.n <= |t|
    ensures Advance(at, ElementTurn(false, read, t[at..], list)) ==
      if v.Err? then Err(v.error) else Close(list + [v.value], Advance(at, AfterPart(false, t[at..], v.n - at, ']')))
  {
  }

  /** What follows the element just read. */
  method ScanElementEnd(t: string, at: nat, list: seq<Value>, v: Result<Value>, ghost read: string -> Result<Value>)
    returns (r: Result<Turn>)
    requires Consumes(read) && at <= |t| && v == Advance(at, read(t[at..]))
    ensures r == Advance(at, ElementTurn(false, read, t[at..], list))
  {
    ElementIs(read, t, at, list, v);
    if v.Err? { return Err(v.error); }
    var after := ScanAfter(t, at, v.n, ']');
    r := Close(list + [v.value], after);
  }

  method ScanElement(codec: Codec, e: Schema, t: string, at: nat, list: seq<Value>) returns (r: Result<Turn>)
    requires at <= |t|
    ensures r == Advance(at, ElementTurn(false, ElementReader(false, codec, e), t[at..], list))
    decreases e, 5
  {
    var v := ScanValue(codec, e, t, at, Default(e));
    ElementReaderIs(false, codec, e, t[at..]);
    r := ScanElementEnd(t, at, list, v, ElementReader(false, codec, e));
  }

  /** Another turn moves the position on. */
  lemma TurnsOn(turn: (nat, string, seq<Value>) -> Result<Turn>, i: nat, t: string, at: nat, parts: seq<Value>,
                r: Result<Turn>)
    requires Moves(turn) && at <= |t| && r == Advance(at, turn(i, t[at..], parts))
    ensures Advance(at, Turns(turn, i, t[at..], parts)) ==
      if r.Err? then Err(r.error)
      else if r.value.more then Advance(r.n, Turns(turn, i + 1, t[r.n..], r.value.parts))
      else Ok(r.n, r.value.parts)
  {
    var one := turn(i, t[at..], parts);
    if one.Ok? { Further(t, at, one.n); }
  }

  /** Elements until the list is closed. */
  method ScanElements(codec: Codec, e: Schema, t: string, at: nat, list: seq<Value>) returns (r: Result<seq<Value>>)
    requires at <= |t|
    ensures r == Advance(at, Turns(ElementTurns(false, ElementReader(false, codec, e)), 0, t[at..], list))
    decreases e, 6
  {
    var size, parts, more := at, list, true;
    ghost var turn := ElementTurns(false, ElementReader(false, codec, e));
    ghost var i: nat := 0;
    ghost var goal := Advance(at, Turns(turn, 0, t[at..], list));
    while more
      invariant size <= |t|
      invariant goal == if more then Advance(size, Turns(turn, i, t[size..], parts)) else Ok(size, parts)
      decreases |t| - size, more
    {
      var one := ScanElement(codec, e, t, size, parts);
      TurnsOn(turn, i, t, size, parts, one);
      if one.Err? { return Err(one.error); }
      size, parts, more, i := one.n, one.value.parts, one.value.more, i + 1;
    }
    r := Ok(size, parts);
  }

  lemma ListIs(turn: (nat, string, seq<Value>) -> Result<Turn>, t: string, at: nat, list: seq<Value>, space: Result<()>)
    requires Moves(turn) && at < |t| && t[at] == '[' && space == Advance(at + 1, SkipWhitespace(t[at + 1..]))
    ensures Advance(at, ReadList(turn, t[at..], list)) ==
      if space.Err? then Err(space.error)
      else if t[space.n] == ']' then Ok(space.n + 1, ListV(list))
      else
        var elements := Advance(space.n, Turns(turn, 0, t[space.n..], list));
        if elements.Err? then Err(elements.error) else Ok(elements.n, ListV(elements.value))
  {
    Further(t, at, 1);
    if space.Ok? { Further(t, at, space.n - at); }
  }

  method ScanList(codec: Codec, e: Schema, t: string, at: nat, list: seq<Value>) returns (r: Result<Value>)
    requires at < |t|
    ensures r == Advance(at, ReadList(ElementTurns(false, ElementReader(false, codec, e)), t[at..], list))
    decreases e, 7
  {
    if t[at] != '[' { return Err(ExpectedArray); }
    var space := SkipSpace(t, at + 1);
    ListIs(ElementTurns(false, ElementReader(false, codec, e)), t, at, list, space);
    if space.Err? { return Err(space.error); }
    if t[space.n] == ']' { return Ok(space.n + 1, ListV(list)); }
    var elements := ScanElements(codec, e, t, space.n, list);
    if elements.Err? { return Err(elements.error); }
    r := Ok(elements.n, ListV(elements.value));
  }

  // ------------------------------------------------------------------ tuples

  lemma PartIs(read: (nat, string, Value) -> Result<Value>, i: nat, t: string, at: nat, xs: seq<Value>,
               v: Result<Value>)
    requires ConsumesAll(read) && at <= |t| && i < |xs| && v == Advance(at, read(i, t[at..], xs[i]))
    ensures v.Ok? ==> at < v.n <= |t|
    ensures Advance(at, TupleTurn(false, read, i, t[at..], xs)) ==
      if v.Err? then Err(v.error)
          else Close(xs[i := v.value], Advance(at, AfterElement(false, t[at..], v.n - at, i == |xs| - 1)))
  {
  }

  lemma PartReaderIs(codec: Codec, s: Schema, i: nat, t: string, x: Value)
    requires (s.TupleS? || s.RecordS?) && i < PartCount(s)
    ensures PartReader(false, codec, s)(i, t, x) == ReadValue(false, codec, Part(s, i), t, x)
  {
  }

  /** What follows the element of a tuple just read. */
  method ScanPartEnd(i: nat, t: string, at: nat, xs: seq<Value>, v: Result<Value>,
                     ghost read: (nat, string, Value) -> Result<Value>)
    returns (r: Result<Turn>)
    requires ConsumesAll(read) && at <= |t| && i < |xs| && v == Advance(at, read(i, t[at..], xs[i]))
    ensures r == Advance(at, TupleTurn(false, read, i, t[at..], xs))
    ensures r.Ok? ==> at < r.n <= |t| && |r.value.parts| == |xs| && (r.value.more ==> i + 1 < |xs|)
  {
    PartIs(read, i, t, at, xs, v);
    if v.Err? { return Err(v.error); }
    var after := ScanAfterElement(t, at, v.n, i == |xs| - 1);
    r := Close(xs[i := v.value], after);
  }

  /** read_value_tuple_impl, one element. */
  method ScanPart(codec: Codec, s: Schema, i: nat, t: string, at: nat, xs: seq<Value>) returns (r: Result<Turn>)
    requires at <= |t| && s.TupleS? && i < |s.elems| == |xs|
    ensures r == Advance(at, TupleTurn(false, PartReader(false, codec, s), i, t[at..], xs))
    ensures r.Ok? ==> at < r.n <= |t| && |r.value.parts| == |xs| && (r.value.more ==> i + 1 < |xs|)
    decreases s, 0
  {
    var v := ScanValue(codec, s.elems[i], t, at, xs[i]);
    PartReaderIs(codec, s, i, t[at..], xs[i]);
    r := ScanPartEnd(i, t, at, xs, v, PartReader(false, codec, s));
  }

  /** read_value_tuple_impl from element i on. */
  method ScanParts(codec: Codec, s: Schema, i: nat, t: string, at: nat, xs: seq<Value>) returns (r: Result<seq<Value>>)
    requires at <= |t| && s.TupleS? && i < |s.elems| == |xs|
    ensures r == Advance(at, Turns(TupleTurns(false, PartReader(false, codec, s)), i, t[at..], xs))
    decreases s, 1, |xs| - i
  {
    var one := ScanPart(codec, s, i, t, at, xs);
    TurnsOn(TupleTurns(false, PartReader(false, codec, s)), i, t, at, xs, one);
    if one.Err? { return Err(one.error); }
    if one.value.more {
      r := ScanParts(codec, s, i + 1, t, one.n, one.value.parts);
    } else {
      r := Ok(one.n, one.value.parts);
    }
  }

  lemma TupleIs(turn: (nat, string, seq<Value>) -> Result<Turn>, t: string, at: nat, xs: seq<Value>)
    requires Moves(turn) && at < |t| && t[at] == '['
    ensures Advance(at, ReadTuple(turn, t[at..], xs)) ==
      var parts := Advance(at + 1, Turns(turn, 0, t[at + 1..], xs));
      if parts.Err? then Err(parts.error) else Ok(parts.n, TupleV(parts.value))
  {
    Further(t, at, 1);
  }

  method ScanTuple(codec: Codec, s: Schema, t: string, at: nat, xs: seq<Value>) returns (r: Result<Value>)
    requires at < |t| && s.TupleS? && |s.elems| == |xs|
    ensures r == Advance(at, ReadTuple(TupleTurns(false, PartReader(false, codec, s)), t[at..], xs))
    decreases s, 2, 0
  {
    if t[at] != '[' { return Err(ExpectedArray); }
    ghost var turn := TupleTurns(false, PartReader(false, codec, s));
    TupleIs(turn, t, at, xs);
    if xs == [] { return Err(UnexpectedError); }
    var parts := ScanParts(codec, s, 0, t, at + 1, xs);
    if parts.Err? { return Err(parts.error); }
    r := Ok(parts.n, TupleV(parts.value));
  }

  // ----------------------------------------------------------------- records

  lemma ValueIs(read: (nat, string, Value) -> Result<Value>, t: string, at: nat, size: nat, i: nat, xs: seq<Value>,
                v: Result<Value>)
    requires ConsumesAll(read) && at <= size <= |t| && i < |xs| && v == Advance(size, read(i, t[size..], xs[i]))
    ensures v.Ok? ==> size < v.n <= |t|
    ensures Advance(at, MemberValue(false, read, t[at..], size - at, i, xs)) ==
      if v.Err? then Err(v.error) else Close(xs[i := v.value], Advance(at, AfterPart(false, t[at..], v.n - at, '}')))
  {
    Further(t, at, size - at);
  }

  /** What follows the member's value just read. */
  method ScanMemberEnd(t: string, at: nat, size: nat, i: nat, xs: seq<Value>, v: Result<Value>,
                       ghost read: (nat, string, Value) -> Result<Value>)
    returns (r: Result<Turn>)
    requires ConsumesAll(read) && at <= size <= |t| && i < |xs| && v == Advance(size, read(i, t[size..], xs[i]))
    ensures r == Advance(at, MemberValue(false, read, t[at..], size - at, i, xs))
    ensures r.Ok? ==> at < r.n <= |t| && |r.value.parts| == |xs|
  {
    ValueIs(read, t, at, size, i, xs, v);
    if v.Err? { return Err(v.error); }
    var after := ScanAfter(t, at, v.n, '}');
    r := Close(xs[i := v.value], after);
  }

  method ScanMemberValue(codec: Codec, s: Schema, t: string, at: nat, size: nat, i: nat, xs: seq<Value>)
    returns (r: Result<Turn>)
    requires at <= size <= |t| && s.RecordS? && i < |s.members| == |xs|
    ensures r == Advance(at, MemberValue(false, PartReader(false, codec, s), t[at..], size - at, i, xs))
    ensures r.Ok? ==> at < r.n <= |t| && |r.value.parts| == |xs|
    decreases s, 0
  {
    var v := ScanValue(codec, s.members[i].schema, t, size, xs[i]);
    PartReaderIs(codec, s, i, t[size..], xs[i]);
    r := ScanMemberEnd(t, at, size, i, xs, v, PartReader(false, codec, s));
  }

  lemma MemberIs(read: (nat, string, Value) -> Result<Value>, keys: seq<string>, t: string, at: nat, xs: seq<Value>,
                 key: Result<nat>)
    requires ConsumesAll(read) && at <= |t| && key == Advance(at, ReadKey(keys, t[at..]))
    ensures Advance(at, MemberTurn(false, read, keys, t[at..], xs)) ==
      if key.Err? then Err(key.error) else Advance(at, MemberValue(false, read, t[at..], key.n - at, key.value, xs))
  {
  }

  method ScanMember(codec: Codec, s: Schema, keys: seq<string>, t: string, at: nat, xs: seq<Value>)
    returns (r: Result<Turn>)
    requires at <= |t| && s.RecordS? && |s.members| == |xs| == |keys|
    ensures r == Advance(at, MemberTurn(false, PartReader(false, codec, s), keys, t[at..], xs))
    ensures r.Ok? ==> at < r.n <= |t| && |r.value.parts| == |xs|
    decreases s, 1
  {
    var key := ScanKey(keys, t, at);
    MemberIs(PartReader(false, codec, s), keys, t, at, xs, key);
    if key.Err? { return Err(key.error); }
    r := ScanMemberValue(codec, s, t, at, key.n, key.value, xs);
  }

  /** Members until the record is closed. */
  method ScanMembers(codec: Codec, s: Schema, keys: seq<string>, t: string, at: nat, xs: seq<Value>)
    returns (r: Result<seq<Value>>)
    requires at <= |t| && s.RecordS? && |s.members| == |xs| == |keys|
    ensures r == Advance(at, Turns(MemberTurns(false, PartReader(false, codec, s), keys), 0, t[at..], xs))
    decreases s, 2, 0
  {
    var size, parts, more := at, xs, true;
    ghost var turn := MemberTurns(false, PartReader(false, codec, s), keys);
    ghost var i: nat := 0;
    ghost var goal := Advance(at, Turns(turn, 0, t[at..], xs));
    while more
      invariant size <= |t| && |parts| == |xs|
      invariant goal == if more then Advance(size, Turns(turn, i, t[size..], parts)) else Ok(size, parts)
      decreases |t| - size, more
    {
      var one := ScanMember(codec, s, keys, t, size, parts);
      TurnsOn(turn, i, t, size, parts, one);
      if one.Err? { return Err(one.error); }
      size, parts, more, i := one.n, one.value.parts, one.value.more, i + 1;
    }
    r := Ok(size, parts);
  }

  lemma RecordIs(turn: (nat, string, seq<Value>) -> Result<Turn>, t: string, at: nat, xs: seq<Value>)
    requires Moves(turn) && at < |t| && t[at] == '{'
    ensures Advance(at, ReadRecord(turn, t[at..], xs)) ==
      var parts := Advance(at + 1, Turns(turn, 0, t[at + 1..], xs));
      if parts.Err? then Err(parts.error) else Ok(parts.n, RecordV(parts.value))
  {
    Further(t, at, 1);
  }

  method ScanRecord(codec: Codec, s: Schema, keys: seq<string>, t: string, at: nat, xs: seq<Value>)
    returns (r: Result<Value>)
    requires at < |t| && s.RecordS? && |s.members| == |xs| == |keys|
    ensures r == Advance(at, ReadRecord(MemberTurns(false, PartReader(false, codec, s), keys), t[at..], xs))
    decreases s, 2, 1
  {
    if t[at] != '{' { return Err(ExpectedObject); }
    RecordIs(MemberTurns(false, PartReader(false, codec, s), keys), t, at, xs);
    var members := ScanMembers(codec, s, keys, t, at + 1, xs);
    if members.Err? { return Err(members.error); }
    r := Ok(members.n, RecordV(members.value));
  }

  /** structure_json. */
  method ScanJson(codec: Codec, s: Schema, t: string, x: Value) returns (r: Option<Value>)
    ensures r == StructureJson(codec, s, t, x)
  {
    assert t[0..] == t;
    var v := ScanValue(codec, s, t, 0, x);
    r := if v.Ok? then Some(v.value) else None;
  }
}
