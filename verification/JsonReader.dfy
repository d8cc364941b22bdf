/** The schema-directed JSON reader, as functions of the text still to read. */
module JsonReader {

  import opened Wrappers
  import opened LookupTables
  import opened JsonTypes

  datatype Error =
    | UnexpectedEof | UnexpectedError | UnexpectedKey | UnexpectedSymbol | UnexpectedValue
    | ExpectedArray | ExpectedLess | ExpectedMore | ExpectedObject | ExpectedString

  /** How many bytes were consumed and what was read, or what went wrong. */
  datatype Result<+T> = Ok(n: nat, value: T) | Err(error: Error)

  /** The first byte above space, from place i on. */
  function FindToken(t: string, i: nat): (j: nat)
    requires i <= |t|
    ensures i <= j <= |t|
    decreases |t| - i
  {
    if i == |t| || t[i] > ' ' then i else FindToken(t, i + 1)
  }

  lemma FindTokenFinds(t: string, i: nat, j: nat)
    requires i <= j <= |t| && (forall k :: i <= k < j ==> t[k] <= ' ') && (j < |t| ==> t[j] > ' ')
    ensures FindToken(t, i) == j
    decreases |t| - i
  {
  }

  /** skip_whitespace: where the next token starts; running out of text is an error. */
  function SkipWhitespace(t: string): (r: Result<()>)
    ensures r.Ok? ==> r.n < |t|
  {
    var j := FindToken(t, 0);
    if j == |t| then Err(UnexpectedEof) else Ok(j, ())
  }

  /** Where the next quote is, from place i on. */
  function FindQuote(t: string, i: nat): (j: nat)
    requires i <= |t|
    ensures i <= j <= |t|
    decreases |t| - i
  {
    if i == |t| || t[i] == '"' then i else FindQuote(t, i + 1)
  }

  lemma FindQuoteLaw(t: string, i: nat)
    requires i <= |t|
    ensures var j := FindQuote(t, i);
      (j < |t| ==> t[j] == '"') && forall k :: i <= k < j ==> t[k] != '"'
    decreases |t| - i
  {
  }

  /** What the backslashes before a quote make of it. */
  datatype Quote = Closing | Escaped | TooMany

  function QuoteAt(t: string, j: nat): (q: Quote)
    requires 0 < j <= |t| && t[0] == '"'
  {
    if t[j - 1] != '\\' then Closing
    else if t[j - 2] != '\\' then Escaped
    else if t[j - 3] != '\\' then Closing
    else if t[j - 4] != '\\' then Escaped
    else TooMany
  }

  function Quoted(s: string): (t: string) {
    "\"" + (s + "\"")
  }

  /** Between quotes, the reader finds the closing quote at the end and not before:
      it takes one or three backslashes before a quote for an escape, none or two not. */
  ghost predicate Closed(s: string) {
    var t := Quoted(s);
    && (forall k :: 1 <= k <= |s| && t[k] == '"' ==> QuoteAt(t, k) == Escaped)
    && QuoteAt(t, |s| + 1) == Closing
  }

  /** read_string from its opening quote: the string and the place of the closing quote. */
  function ReadString(t: string): (r: Result<string>)
    requires t != []
    ensures r.Ok? ==> 0 < r.n < |t|
  {
    if t[0] != '"' then Err(ExpectedString) else ReadStringFrom(t, 1)
  }

  function ReadStringFrom(t: string, i: nat): (r: Result<string>)
    requires t != [] && t[0] == '"' && 0 < i <= |t|
    ensures r.Ok? ==> i <= r.n < |t|
    decreases |t| - i
  {
    var j := FindQuote(t, i);
    if j == |t| then Err(UnexpectedEof)
    else
      match QuoteAt(t, j)
      case Closing => Ok(j, t[1..j])
      case TooMany => Err(UnexpectedError)
      case Escaped => ReadStringFrom(t, j + 1)
  }

  function Advance<T>(n: nat, r: Result<T>): (r': Result<T>) {
    match r
    case Ok(m, v) => Ok(n + m, v)
    case Err(e) => Err(e)
  }

  /** The next token is a single byte: which one, and the place behind it. */
  function ReadSymbol(t: string): (r: Result<char>)
    ensures r.Ok? ==> 0 < r.n <= |t| && r.value == t[r.n - 1]
  {
    match SkipWhitespace(t)
    case Err(e) => Err(e)
    case Ok(n, _) => Ok(n + 1, t[n])
  }

  /** A member's key and the colon: which member, and the place behind the colon. */
  function ReadKey(keys: seq<string>, t: string): (r: Result<nat>)
    ensures r.Ok? ==> 0 < r.n <= |t| && r.value < |keys|
  {
    match SkipWhitespace(t)
    case Err(e) => Err(e)
    case Ok(n, _) => ReadName(keys, t, n)
  }

  function ReadName(keys: seq<string>, t: string, n: nat): (r: Result<nat>)
    requires n < |t|
    ensures r.Ok? ==> 0 < r.n <= |t| && r.value < |keys|
  {
    match ReadString(t[n..])
    case Err(e) => Err(e)
    case Ok(k, key) =>
      match Find(keys, key)
      case None => Err(UnexpectedKey)
      case Some(i) =>
        match ReadSymbol(t[n + k + 1..])
        case Err(e) => Err(e)
        case Ok(m, c) => if c == ':' then Ok(n + k + 1 + m, i) else Err(UnexpectedSymbol)
  }

  function ReadBool(t: string): (r: Result<Value>)
    ensures r.Ok? ==> 0 < r.n <= |t| && r.value.BoolV?
  {
    if 4 <= |t| && t[..4] == "true" then Ok(4, BoolV(true))
    else if 5 <= |t| && t[..5] == "false" then Ok(5, BoolV(false))
    else Err(UnexpectedValue)
  }

  function ReadNumber(codec: Codec, t: string): (r: Result<Value>)
    ensures r.Ok? ==> 0 < r.n <= |t| && r.value.NumberV?
  {
    match codec.parse(t)
    case Some((v, n)) => if 0 < n <= |t| then Ok(n, NumberV(v)) else Err(UnexpectedValue)
    case None => Err(UnexpectedValue)
  }

  function ReadEnum(table: Enumeration, t: string): (r: Result<Value>)
    requires t != []
    ensures r.Ok? ==> 0 < r.n <= |t| && r.value.EnumV?
  {
    match ReadString(t)
    case Err(e) => Err(e)
    case Ok(n, name) =>
      match ValueOf(table, name)
      case Some(v) => Ok(n + 1, EnumV(v))
      case None => Err(UnexpectedValue)
  }

  /** A reader that consumes something whenever it succeeds. */
  ghost predicate Consumes(read: string -> Result<Value>) {
    forall t :: read(t).Ok? ==> 0 < read(t).n <= |t|
  }

  /** The same for a reader of member i into what the member holds. */
  ghost predicate ConsumesAll(read: (nat, string, Value) -> Result<Value>) {
    forall i, t, x :: read(i, t, x).Ok? ==> 0 < read(i, t, x).n <= |t|
  }

  /** What a turn of a reading loop leaves: the parts read so far, and whether more follow. */
  datatype Turn = Turn(parts: seq<Value>, more: bool)

  ghost predicate Moves(turn: (nat, string, seq<Value>) -> Result<Turn>) {
    forall i, t, parts :: turn(i, t, parts).Ok? ==> 0 < turn(i, t, parts).n <= |t|
  }

  /** A reading loop from turn number i on. */
  function Turns(turn: (nat, string, seq<Value>) -> Result<Turn>, i: nat, t: string,
                 parts: seq<Value>): (r: Result<seq<Value>>)
    requires Moves(turn)
    ensures r.Ok? ==> 0 < r.n <= |t|
    decreases |t|
  {
    match turn(i, t, parts)
    case Err(error) => Err(error)
    case Ok(n, after) => if after.more then Advance(n, Turns(turn, i + 1, t[n..], after.parts)) else Ok(n, after.parts)
  }

  /** A value was read: does `close` or a comma follow?  A value that ends the text
      ends the reading, unless the reader is strict. */
  function AfterPart(strict: bool, t: string, n: nat, close: char): (r: Result<bool>)
    requires 0 < n <= |t|
    ensures r.Ok? ==> 0 < r.n <= |t|
  {
    if n == |t| then (if strict then Err(UnexpectedEof) else Ok(n, false)) else
      match ReadSymbol(t[n..])
      case Err(error) => Err(error)
      case Ok(m, c) =>
        if c == ',' then Ok(n + m, true)
        else if c == close then Ok(n + m, false)
        else Err(UnexpectedSymbol)
  }

  /** The same behind a tuple's element: a comma has to follow all but the last, a
      bracket the last. */
  function AfterElement(strict: bool, t: string, n: nat, last: bool): (r: Result<bool>)
    requires 0 < n <= |t|
    ensures r.Ok? ==> 0 < r.n <= |t|
  {
    if n == |t| then (if strict then Err(UnexpectedEof) else Ok(n, false)) else
      match ReadSymbol(t[n..])
      case Err(error) => Err(error)
      case Ok(m, c) =>
        if last then (if c == ']' then Ok(n + m, false) else Err(ExpectedLess))
        else if c == ',' then Ok(n + m, true)
        else Err(ExpectedMore)
  }

  function Close(parts: seq<Value>, r: Result<bool>): (r': Result<Turn>) {
    match r
    case Ok(n, more) => Ok(n, Turn(parts, more))
    case Err(error) => Err(error)
  }

  /** A list grows by an element. */
  function ElementTurn(strict: bool, read: string -> Result<Value>, t: string, list: seq<Value>): (r: Result<Turn>)
    requires Consumes(read)
    ensures r.Ok? ==> 0 < r.n <= |t|
  {
    match read(t)
    case Err(error) => Err(error)
    case Ok(n, v) => Close(list + [v], AfterPart(strict, t, n, ']'))
  }

  function ElementTurns(strict: bool, read: string -> Result<Value>): (turn: (nat, string, seq<Value>) -> Result<Turn>)
    requires Consumes(read)
    ensures Moves(turn)
  {
    (i: nat, t: string, list: seq<Value>) => ElementTurn(strict, read, t, list)
  }

  /** Element i of a tuple. */
  function TupleTurn(strict: bool, read: (nat, string, Value) -> Result<Value>, i: nat, t: string,
                     xs: seq<Value>): (r: Result<Turn>)
    requires ConsumesAll(read)
    ensures r.Ok? ==> 0 < r.n <= |t|
  {
    if i >= |xs| then Err(UnexpectedError) else // no tuple type is empty
      match read(i, t, xs[i])
      case Err(error) => Err(error)
      case Ok(n, v) => Close(xs[i := v], AfterElement(strict, t, n, i == |xs| - 1))
  }

  function TupleTurns(strict: bool,
                      read: (nat, string, Value) -> Result<Value>): (turn: (nat, string, seq<Value>) -> Result<Turn>)
    requires ConsumesAll(read)
    ensures Moves(turn)
  {
    (i: nat, t: string, xs: seq<Value>) => TupleTurn(strict, read, i, t, xs)
  }

  /** A member: its key decides which. */
  function MemberTurn(strict: bool, read: (nat, string, Value) -> Result<Value>, keys: seq<string>, t: string,
                      xs: seq<Value>): (r: Result<Turn>)
    requires ConsumesAll(read)
    ensures r.Ok? ==> 0 < r.n <= |t|
  {
    match ReadKey(keys, t)
    case Err(error) => Err(error)
    case Ok(k, i) => MemberValue(strict, read, t, k, i, xs)
  }

  function MemberValue(strict: bool, read: (nat, string, Value) -> Result<Value>, t: string, k: nat, i: nat,
                       xs: seq<Value>): (r: Result<Turn>)
    requires ConsumesAll(read) && k <= |t|
    ensures r.Ok? ==> 0 < r.n <= |t|
  {
    if i >= |xs| then Err(UnexpectedError) else // there is a member for every key
      match read(i, t[k..], xs[i])
      case Err(error) => Err(error)
      case Ok(n, v) => Close(xs[i := v], AfterPart(strict, t, k + n, '}'))
  }

  function MemberTurns(strict: bool, read: (nat, string, Value) -> Result<Value>,
                       keys: seq<string>): (turn: (nat, string, seq<Value>) -> Result<Turn>)
    requires ConsumesAll(read)
    ensures Moves(turn)
  {
    (i: nat, t: string, xs: seq<Value>) => MemberTurn(strict, read, keys, t, xs)
  }

  /** read_value: reads into x, which gives members that are not mentioned their
      values and lists their first elements. */
  function ReadValue(strict: bool, codec: Codec, s: Schema, t: string, x: Value): (r: Result<Value>)
    ensures r.Ok? ==> 0 < r.n <= |t|
    decreases s, 2
  {
    match SkipWhitespace(t)
    case Err(e) => Err(e)
    case Ok(n, _) => Advance(n, ReadToken(strict, codec, s, t[n..], x))
  }

  /** read_value at the first byte of a token. */
  function ReadToken(strict: bool, codec: Codec, s: Schema, t: string, x: Value): (r: Result<Value>)
    requires t != []
    ensures r.Ok? ==> 0 < r.n <= |t|
    decreases s, 1
  {
    if Composite(s) then ReadComposite(strict, codec, s, t, x) else ReadScalar(codec, s, t)
  }

  predicate Composite(s: Schema) {
    s.ListS? || s.TupleS? || s.RecordS?
  }

  function ReadScalar(codec: Codec, s: Schema, t: string): (r: Result<Value>)
    requires t != [] && !Composite(s)
    ensures r.Ok? ==> 0 < r.n <= |t|
  {
    match s
    case BoolS => ReadBool(t)
    case NumberS => ReadNumber(codec, t)
    case StringS =>
      (match ReadString(t)
       case Err(e) => Err(e)
       case Ok(n, str) => Ok(n + 1, StringV(str)))
    case EnumS(table) => ReadEnum(table, t)
  }

  function ReadComposite(strict: bool, codec: Codec, s: Schema, t: string, x: Value): (r: Result<Value>)
    requires t != [] && Composite(s)
    ensures r.Ok? ==> 0 < r.n <= |t|
    decreases s, 0, 1
  {
    match s
    case ListS(e) => ReadList(ElementTurns(strict, ElementReader(strict, codec, e)), t, ListOf(x))
    case TupleS(es) => ReadTuple(TupleTurns(strict, PartReader(strict, codec, s)), t, TupleOf(es, x))
    case RecordS(ms) => ReadRecord(MemberTurns(strict, PartReader(strict, codec, s), KeysOf(ms)), t, RecordOf(ms, x))
  }

  /** Reads a new element of a list. */
  function ElementReader(strict: bool, codec: Codec, e: Schema): (read: string -> Result<Value>)
    ensures Consumes(read)
    decreases e, 3
  {
    (t: string) => ReadValue(strict, codec, e, t, Default(e))
  }

  /** Reads element i of a tuple, or member i of a record, into what it holds. */
  function PartReader(strict: bool, codec: Codec, s: Schema): (read: (nat, string, Value) -> Result<Value>)
    requires s.TupleS? || s.RecordS?
    ensures ConsumesAll(read)
    decreases s, 0, 0
  {
    (i: nat, t: string, x: Value) =>
      if i < PartCount(s) then ReadValue(strict, codec, Part(s, i), t, x) else Err(UnexpectedError)
  }

  function PartCount(s: Schema): (n: nat)
    requires s.TupleS? || s.RecordS?
  {
    if s.TupleS? then |s.elems| else |s.members|
  }

  function Part(s: Schema, i: nat): (p: Schema)
    requires (s.TupleS? || s.RecordS?) && i < PartCount(s)
    ensures p < s
  {
    if s.TupleS? then s.elems[i] else s.members[i].schema
  }

  function ReadList(turn: (nat, string, seq<Value>) -> Result<Turn>, t: string, list: seq<Value>): (r: Result<Value>)
    requires t != [] && Moves(turn)
    ensures r.Ok? ==> 0 < r.n <= |t|
  {
    if t[0] != '[' then Err(ExpectedArray) else
      match SkipWhitespace(t[1..])
      case Err(e) => Err(e)
      case Ok(n, _) =>
        if t[1 + n] == ']' then Ok(n + 2, ListV(list)) else
          match Turns(turn, 0, t[1 + n..], list)
          case Err(e) => Err(e)
          case Ok(m, vs) => Ok(1 + n + m, ListV(vs))
  }

  function ReadTuple(turn: (nat, string, seq<Value>) -> Result<Turn>, t: string, xs: seq<Value>): (r: Result<Value>)
    requires t != [] && Moves(turn)
    ensures r.Ok? ==> 0 < r.n <= |t|
  {
    if t[0] != '[' then Err(ExpectedArray) else
      match Turns(turn, 0, t[1..], xs)
      case Err(e) => Err(e)
      case Ok(m, vs) => Ok(1 + m, TupleV(vs))
  }

  function ReadRecord(turn: (nat, string, seq<Value>) -> Result<Turn>, t: string, xs: seq<Value>): (r: Result<Value>)
    requires t != [] && Moves(turn)
    ensures r.Ok? ==> 0 < r.n <= |t|
  {
    if t[0] != '{' then Err(ExpectedObject) else
      match Turns(turn, 0, t[1..], xs)
      case Err(e) => Err(e)
      case Ok(m, vs) => Ok(1 + m, RecordV(vs))
  }

  /** structure_json: what the text reads as. */
  function StructureJson(codec: Codec, s: Schema, t: string, x: Value): (r: Option<Value>) {
    match ReadValue(false, codec, s, t, x)
    case Ok(_, v) => Some(v)
    case Err(_) => None
  }

  lemma ElementReaderIs(strict: bool, codec: Codec, e: Schema, t: string)
    ensures ElementReader(strict, codec, e)(t) == ReadValue(strict, codec, e, t, Default(e))
  {
  }

  lemma ValueUnfolds(strict: bool, codec: Codec, s: Schema, t: string, x: Value, n: nat, w: string)
    requires SkipWhitespace(t) == Ok(n, ()) && w == t[n..]
    ensures w != [] && ReadValue(strict, codec, s, t, x) == Advance(n, ReadToken(strict, codec, s, w, x))
  {
  }
}
