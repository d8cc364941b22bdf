/** The INI reader, as functions from the text still to read to the text left over. */
module IniReader {

  import opened Wrappers
  import opened LookupTables
  import opened JsonTypes

  datatype Error =
    | UnexpectedEof | UnexpectedEol | UnexpectedHeader | UnexpectedKey | UnexpectedSymbol
    | UnexpectedValue | MissingSpaces | TypeMismatch

  /** What was read and the text behind it, or what went wrong. */
  datatype Result<+T> = Ok(rest: string, value: T) | Err(error: Error)

  /** A place in the text. */
  datatype Found = Found(at: nat) | Lost(error: Error)

  predicate LineEnd(c: char) {
    c == '\r' || c == '\n'
  }

  /** skip_to_char: the next place behind i where c stands, on the same line. */
  function SkipToChar(t: string, i: nat, c: char): (r: Found)
    ensures r.Found? ==> i < r.at < |t| && t[r.at] == c
    decreases |t| - i
  {
    if i + 1 >= |t| then Lost(UnexpectedEof)
    else if t[i + 1] == c then Found(i + 1)
    else if LineEnd(t[i + 1]) then Lost(UnexpectedEol)
    else SkipToChar(t, i + 1, c)
  }

  /** skip_to_line: the next line end behind place i. */
  function SkipToLine(t: string, i: nat): (r: Found)
    ensures r.Found? ==> i < r.at < |t| && LineEnd(t[r.at])
    decreases |t| - i
  {
    if i + 1 >= |t| then Lost(UnexpectedEof)
    else if LineEnd(t[i + 1]) then Found(i + 1)
    else SkipToLine(t, i + 1)
  }

  function SkipBlanks(t: string, i: nat): (j: nat)
    requires i <= |t|
    ensures i <= j <= |t|
    decreases |t| - i
  {
    if i < |t| && t[i] <= ' ' then SkipBlanks(t, i + 1) else i
  }

  /** skip_whitespace: blanks, and comments up to the end of their line. */
  function SkipWhitespace(t: string, i: nat): (r: Found)
    requires i < |t|
    ensures r.Found? ==> i <= r.at <= |t|
  {
    if t[i] == ';' then
      match SkipToLine(t, i)
      case Lost(e) => Lost(e)
      case Found(j) => SkipFrom(t, j + 1)
    else if t[i] <= ' ' then SkipFrom(t, i + 1)
    else Found(i)
  }

  function SkipFrom(t: string, i: nat): (r: Found)
    requires i <= |t|
    ensures r.Found? ==> i <= r.at <= |t|
    decreases |t| - i
  {
    var k := SkipBlanks(t, i);
    if k < |t| && t[k] == ';' then
      match SkipToLine(t, k)
      case Lost(e) => Lost(e)
      case Found(j) => SkipFrom(t, j + 1)
    else Found(k)
  }

  /** read_header: the name between the brackets; the line ends behind them. */
  function ReadHeader(t: string): (r: Result<string>)
    requires t != []
    ensures r.Ok? ==> 0 < |r.rest| < |t|
  {
    if t[0] != '[' then Err(UnexpectedSymbol) else
      match SkipToChar(t, 0, ']')
      case Lost(e) => Err(e)
      case Found(j) =>
        if j + 1 == |t| then Err(UnexpectedEof)
        else if LineEnd(t[j + 1]) then Ok(t[j + 1..], t[1..j])
        else Err(UnexpectedSymbol)
  }

  /** read_value from the '=' on: what stands behind it up to the line end. */
  function ReadValue(codec: Codec, s: Schema, t: string): (r: Result<Value>)
    ensures r.Ok? ==> |r.rest| < |t| && r.rest != []
  {
    match s
    case BoolS =>
      if 7 <= |t| && t[..6] == "= true" && LineEnd(t[6]) then Ok(t[6..], BoolV(true))
      else if 8 <= |t| && t[..7] == "= false" && LineEnd(t[7]) then Ok(t[7..], BoolV(false))
      else Err(UnexpectedValue)
    case NumberS =>
      if |t| < 2 then Err(UnexpectedValue) else
        (match codec.parse(t[2..])
         case Some((v, n)) =>
           if 0 < n && 2 + n < |t| && LineEnd(t[2 + n]) then Ok(t[2 + n..], NumberV(v)) else Err(UnexpectedValue)
         case None => Err(UnexpectedValue))
    case StringS => (match ReadText(t) case Err(e) => Err(e) case Ok(rest, text) => Ok(rest, StringV(text)))
    case EnumS(table) =>
      (match ReadText(t)
       case Err(e) => Err(e)
       case Ok(rest, name) =>
         match ValueOf(table, name)
         case Some(v) => Ok(rest, EnumV(v))
         case None => Err(UnexpectedValue))
    case _ => Err(TypeMismatch)
  }

  /** The rest of the line behind "= ". */
  function ReadText(t: string): (r: Result<string>)
    ensures r.Ok? ==> 0 < |r.rest| < |t|
  {
    match SkipToLine(t, 1)
    case Lost(e) => Err(e)
    case Found(j) => Ok(t[j..], t[2..j])
  }

  /** A key, " = " and a value: the members with the value in place. */
  function ReadEntry(codec: Codec, ms: seq<Member>, t: string, xs: seq<Value>): (r: Result<seq<Value>>)
    requires t != []
    ensures r.Ok? ==> 0 < |r.rest| < |t|
    ensures r.Ok? && |xs| == |ms| ==> |r.value| == |ms|
  {
    if t[0] == '=' then Err(MissingSpaces) else
      match SkipToChar(t, 0, '=')
      case Lost(e) => Err(e)
      case Found(j) =>
        if t[j - 1] != ' ' || j + 1 == |t| || t[j + 1] != ' ' then Err(MissingSpaces)
        else Assign(codec, ms, t[..j - 1], t[j..], xs)
  }

  function Assign(codec: Codec, ms: seq<Member>, key: string, t: string, xs: seq<Value>): (r: Result<seq<Value>>)
    ensures r.Ok? ==> 0 < |r.rest| < |t|
    ensures r.Ok? && |xs| == |ms| ==> |r.value| == |ms|
  {
    match Find(KeysOf(ms), key)
    case None => Err(UnexpectedKey)
    case Some(i) =>
      match ReadValue(codec, ms[i].schema, t)
      case Err(e) => Err(e)
      case Ok(rest, v) => if i < |xs| then Ok(rest, xs[i := v]) else Err(UnexpectedKey)
  }

  /** read_key_values: entries up to a header or the end of the text. */
  function ReadEntries(codec: Codec, ms: seq<Member>, t: string, xs: seq<Value>): (r: Result<seq<Value>>)
    ensures r.Ok? ==> |r.rest| <= |t|
    ensures r.Ok? && |xs| == |ms| ==> |r.value| == |ms|
    decreases |t|
  {
    if t == [] then Err(UnexpectedEof) else
      match SkipWhitespace(t, 0)
      case Lost(e) => Err(e)
      case Found(k) => EntriesAt(codec, ms, t[k..], xs)
  }

  function EntriesAt(codec: Codec, ms: seq<Member>, u: string, xs: seq<Value>): (r: Result<seq<Value>>)
    ensures r.Ok? ==> |r.rest| <= |u|
    ensures r.Ok? && |xs| == |ms| ==> |r.value| == |ms|
    decreases |u|, 0
  {
    if u == [] || u[0] == '[' then Ok(u, xs) else
      match ReadEntry(codec, ms, u, xs)
      case Err(e) => Err(e)
      case Ok(rest, xs') => ReadEntries(codec, ms, rest, xs')
  }

  /** A header and the entries below it. */
  function ReadSection(codec: Codec, ms: seq<Member>, t: string, xs: seq<Value>): (r: Result<seq<Value>>)
    requires t != []
    ensures r.Ok? ==> |r.rest| < |t|
    ensures r.Ok? && |xs| == |ms| ==> |r.value| == |ms|
  {
    match ReadHeader(t)
    case Err(e) => Err(e)
    case Ok(rest, name) =>
      match Find(KeysOf(ms), name)
      case None => Err(UnexpectedHeader)
      case Some(i) => if i < |xs| then ReadSectionOf(codec, ms[i].schema, rest, xs, i) else Err(UnexpectedHeader)
  }

  function ReadSectionOf(codec: Codec, s: Schema, t: string, xs: seq<Value>, i: nat): (r: Result<seq<Value>>)
    requires i < |xs|
    ensures r.Ok? ==> |r.rest| <= |t| && |r.value| == |xs|
  {
    if s.RecordS? then
      match ReadEntries(codec, s.members, t, RecordOf(s.members, xs[i]))
      case Err(e) => Err(e)
      case Ok(rest, ys) => Ok(rest, xs[i := RecordV(ys)])
    else Err(TypeMismatch)
  }

  function ReadSections(codec: Codec, ms: seq<Member>, t: string, xs: seq<Value>): (r: Result<seq<Value>>)
    ensures r.Ok? && |xs| == |ms| ==> |r.value| == |ms|
    decreases |t|
  {
    if t == [] then Ok(t, xs) else
      match ReadSection(codec, ms, t, xs)
      case Err(e) => Err(e)
      case Ok(rest, xs') => ReadSections(codec, ms, rest, xs')
  }

  /** read_all. */
  function ReadAll(codec: Codec, ms: seq<Member>, t: string, xs: seq<Value>): (r: Result<seq<Value>>) {
    if t == [] then Ok(t, xs)
    else if t[0] == '=' then Err(MissingSpaces)
    else
      match ReadEntries(codec, ms, t, xs)
      case Err(e) => Err(e)
      case Ok(rest, xs') => ReadSections(codec, ms, rest, xs')
  }

  /** structure_ini. */
  function StructureIni(codec: Codec, ms: seq<Member>, t: string, xs: seq<Value>): (r: Option<seq<Value>>) {
    match ReadAll(codec, ms, t, xs)
    case Ok(_, vs) => Some(vs)
    case Err(_) => None
  }
}
