/** The INI reader as it runs: loops that move a position through the text.  Each
    method computes the function of the remaining text it stands for.  The functions
    speak of what is left of the text, the methods of places in all of it; the lemmas
    in between say that shifting the text shifts the places found in it, and nothing else. */
module IniScanner {

  import opened Wrappers
  import opened Strings
  import opened LookupTables
  import opened JsonTypes
  import opened IniReader

  /** What was read and the position behind it. */
  datatype Scan<+T> = At(n: nat, value: T) | Fail(error: Error)

  /** The same with the remaining text for the position. */
  function Left<T>(t: string, scan: Scan<T>): (r: Result<T>)
    requires scan.At? ==> scan.n <= |t|
  {
    match scan
    case At(n, v) => Ok(t[n..], v)
    case Fail(e) => Err(e)
  }

  function Shift(found: Found, at: nat): (r: Found) {
    match found
    case Found(i) => Found(at + i)
    case Lost(e) => Lost(e)
  }

  lemma {:induction false} CharShifts(t: string, at: nat, i: nat, c: char)
    requires at <= |t|
    ensures SkipToChar(t, at + i, c) == Shift(SkipToChar(t[at..], i, c), at)
    decreases |t| - i
  {
    if at + i + 1 < |t| { CharShifts(t, at, i + 1, c); }
  }

  lemma {:induction false} LineShifts(t: string, at: nat, i: nat)
    requires at <= |t|
    ensures SkipToLine(t, at + i) == Shift(SkipToLine(t[at..], i), at)
    decreases |t| - i
  {
    if at + i + 1 < |t| { LineShifts(t, at, i + 1); }
  }

  lemma {:induction false} BlanksShift(t: string, at: nat, i: nat)
    requires at + i <= |t|
    ensures SkipBlanks(t, at + i) == at + SkipBlanks(t[at..], i)
    decreases |t| - i
  {
    if at + i < |t| { BlanksShift(t, at, i + 1); }
  }

  lemma FromIs(t: string, i: nat, k: nat, line: Found)
    requires i <= |t| && k == SkipBlanks(t, i) && (k < |t| && t[k] == ';' ==> line == SkipToLine(t, k))
    ensures SkipFrom(t, i) ==
      if !(k < |t| && t[k] == ';') then Found(k)
      else if line.Lost? then line
      else SkipFrom(t, line.at + 1)
  {
  }

  lemma {:induction false} FromShifts(t: string, at: nat, i: nat)
    requires at + i <= |t|
    ensures SkipFrom(t, at + i) == Shift(SkipFrom(t[at..], i), at)
    decreases |t| - i
  {
    var u, k := t[at..], SkipBlanks(t[at..], i);
    var line := SkipToLine(u, k);
    BlanksShift(t, at, i);
    LineShifts(t, at, k);
    FromIs(u, i, k, line);
    FromIs(t, at + i, at + k, Shift(line, at));
    if k < |u| {
      assert u[k] == t[at + k];
      if u[k] == ';' && line.Found? { FromShifts(t, at, line.at + 1); }
    }
  }

  lemma WhitespaceShifts(t: string, at: nat)
    requires at < |t|
    ensures SkipWhitespace(t, at) == Shift(SkipWhitespace(t[at..], 0), at)
  {
    var u := t[at..];
    LineShifts(t, at, 0);
    if t[at] == ';' && SkipToLine(u, 0).Found? { FromShifts(t, at, SkipToLine(u, 0).at + 1); }
    else if t[at] <= ' ' { FromShifts(t, at, 1); }
  }

  /** skip_to_char: the inner loop passes every byte above c. */
  method ScanToChar(t: string, from: nat, c: char) returns (r: Found)
    requires from < |t| && c > '\r'
    ensures r == SkipToChar(t, from, c)
  {
    var size := from;
    while true
      invariant from <= size < |t| && SkipToChar(t, from, c) == SkipToChar(t, size, c)
      decreases |t| - size
    {
      ghost var start := size;
      size := size + 1;
      if size == |t| { return Lost(UnexpectedEof); }
      while t[size] > c
        invariant start < size < |t| && SkipToChar(t, from, c) == SkipToChar(t, size - 1, c)
        decreases |t| - size
      {
        size := size + 1;
        if size == |t| { return Lost(UnexpectedEof); }
      }
      if LineEnd(t[size]) { return Lost(UnexpectedEol); }
      if t[size] == c { return Found(size); }
    }
  }

  /** skip_to_line: the inner loop passes every byte above a carriage return. */
  method ScanToLine(t: string, from: nat) returns (r: Found)
    ensures r == SkipToLine(t, from)
  {
    if from >= |t| { return Lost(UnexpectedEof); }
    var size := from;
    while true
      invariant from <= size < |t| && SkipToLine(t, from) == SkipToLine(t, size)
      decreases |t| - size
    {
      ghost var start := size;
      size := size + 1;
      if size == |t| { return Lost(UnexpectedEof); }
      while t[size] > '\r'
        invariant start < size < |t| && SkipToLine(t, from) == SkipToLine(t, size - 1)
        decreases |t| - size
      {
        size := size + 1;
        if size == |t| { return Lost(UnexpectedEof); }
      }
      if LineEnd(t[size]) { return Found(size); }
    }
  }

  method ScanBlanks(t: string, from: nat) returns (size: nat)
    requires from <= |t|
    ensures from <= size <= |t| && size == SkipBlanks(t, from)
  {
    size := from;
    while size < |t| && t[size] <= ' '
      invariant from <= size <= |t| && SkipBlanks(t, from) == SkipBlanks(t, size)
    {
      size := size + 1;
    }
  }

  lemma BlanksSettle(t: string, i: nat)
    requires i <= |t|
    ensures SkipBlanks(t, SkipBlanks(t, i)) == SkipBlanks(t, i)
    decreases |t| - i
  {
  }

  lemma FromSettles(t: string, i: nat, k: nat)
    requires i <= |t| && k == SkipBlanks(t, i)
    ensures SkipBlanks(t, k) == k && SkipFrom(t, k) == SkipFrom(t, i)
  {
    BlanksSettle(t, i);
  }

  /** Comments and blanks in turn, while a comment follows. */
  method ScanComments(t: string, from: nat) returns (r: Found)
    requires from <= |t|
    ensures r == SkipFrom(t, from)
  {
    var size := ScanBlanks(t, from);
    FromSettles(t, from, size);
    while size < |t| && t[size] == ';'
      invariant from <= size <= |t| && SkipBlanks(t, size) == size && SkipFrom(t, from) == SkipFrom(t, size)
      decreases |t| - size
    {
      var line := ScanToLine(t, size);
      if line.Lost? { return Lost(line.error); }
      size := ScanBlanks(t, line.at + 1);
      FromSettles(t, line.at + 1, size);
    }
    r := Found(size);
  }

  /** skip_whitespace. */
  method ScanWhitespace(t: string, from: nat) returns (r: Found)
    requires from < |t|
    ensures r == SkipWhitespace(t, from)
  {
    if t[from] == ';' {
      var line := ScanToLine(t, from);
      if line.Lost? { return Lost(line.error); }
      r := ScanComments(t, line.at + 1);
    } else if t[from] <= ' ' {
      r := ScanComments(t, from + 1);
    } else {
      r := Found(from);
    }
  }

  /** read_header. */
  method ScanHeader(t: string, at: nat) returns (r: Scan<string>)
    requires at < |t|
    ensures (r.At? ==> at < r.n < |t|) && Left(t, r) == ReadHeader(t[at..])
  {
    if t[at] != '[' { return Fail(UnexpectedSymbol); }
    CharShifts(t, at, 0, ']');
    var close := ScanToChar(t, at, ']');
    if close.Lost? { return Fail(close.error); }
    var size := close.at + 1;
    if size == |t| { return Fail(UnexpectedEof); }
    if !LineEnd(t[size]) { return Fail(UnexpectedSymbol); }
    Further(t, at, size - at);
    assert t[at..][1..close.at - at] == t[at + 1..close.at];
    return At(size, t[at + 1..close.at]);
  }

  method ScanText(t: string, at: nat) returns (r: Scan<string>)
    requires at < |t|
    ensures (r.At? ==> at < r.n < |t|) && Left(t, r) == ReadText(t[at..])
  {
    LineShifts(t, at, 1);
    var line := ScanToLine(t, at + 1);
    if line.Lost? { return Fail(line.error); }
    Further(t, at, line.at - at);
    assert t[at..][2..line.at - at] == t[at + 2..line.at];
    return At(line.at, t[at + 2..line.at]);
  }

  /** read_value of a text or an enumeration scans the line; the other values are
      compared or parsed in place. */
  method ScanValue(codec: Codec, s: Schema, t: string, at: nat) returns (r: Scan<Value>)
    requires at < |t|
    ensures (r.At? ==> at < r.n < |t|) && Left(t, r) == ReadValue(codec, s, t[at..])
  {
    if s.StringS? {
      var text := ScanText(t, at);
      if text.Fail? { return Fail(text.error); }
      r := At(text.n, StringV(text.value));
    } else if s.EnumS? {
      var name := ScanText(t, at);
      if name.Fail? { return Fail(name.error); }
      var v := ValueOf(s.table, name.value);
      r := if v.Some? then At(name.n, EnumV(v.value)) else Fail(UnexpectedValue);
    } else {
      var v := ReadValue(codec, s, t[at..]);
      r := if v.Ok? then At(|t| - |v.rest|, v.value) else Fail(v.error);
      if v.Ok? { ValueRest(codec, s, t, at); }
    }
  }

  lemma ValueRest(codec: Codec, s: Schema, t: string, at: nat)
    requires at < |t| && ReadValue(codec, s, t[at..]).Ok? && (s.BoolS? || s.NumberS?)
    ensures var rest := ReadValue(codec, s, t[at..]).rest; |rest| <= |t| && t[|t| - |rest|..] == rest
  {
  }

  method ScanAssign(codec: Codec, ms: seq<Member>, key: string, t: string, at: nat, xs: seq<Value>)
    returns (r: Scan<seq<Value>>)
    requires at < |t| && |xs| == |ms|
    ensures r.At? ==> at < r.n < |t| && |r.value| == |ms|
    ensures Left(t, r) == Assign(codec, ms, key, t[at..], xs)
  {
    var member := Find(KeysOf(ms), key);
    if member.None? { return Fail(UnexpectedKey); }
    var v := ScanValue(codec, ms[member.value].schema, t, at);
    if v.Fail? { return Fail(v.error); }
    r := At(v.n, xs[member.value := v.value]);
  }

  lemma EntryUnfolds(codec: Codec, ms: seq<Member>, u: string, xs: seq<Value>, j: nat, key: string, w: string)
    requires u != [] && u[0] != '=' && SkipToChar(u, 0, '=') == Found(j) && key == u[..j - 1] && w == u[j..]
    ensures ReadEntry(codec, ms, u, xs) ==
      if u[j - 1] != ' ' || j + 1 == |u| || u[j + 1] != ' ' then Err(MissingSpaces) else Assign(codec, ms, key, w, xs)
  {
  }

  lemma Front(t: string, at: nat, n: nat)
    requires at + n <= |t|
    ensures t[at..][..n] == t[at..at + n]
  {
  }

  lemma EqualsFound(t: string, at: nat, size: nat)
    requires at < |t| && SkipToChar(t, at, '=') == Found(size)
    ensures at < size < |t| && SkipToChar(t[at..], 0, '=') == Found(size - at)
  {
    CharShifts(t, at, 0, '=');
  }

  lemma EntryIs(codec: Codec, ms: seq<Member>, t: string, at: nat, xs: seq<Value>, size: nat, key: string, w: string)
    requires at < size < |t| && t[at] != '=' && SkipToChar(t[at..], 0, '=') == Found(size - at)
    requires key == t[at..size - 1] && w == t[size..]
    ensures ReadEntry(codec, ms, t[at..], xs) ==
      if t[size - 1] != ' ' || size + 1 == |t| || t[size + 1] != ' ' then Err(MissingSpaces)
          else Assign(codec, ms, key, w, xs)
  {
    Further(t, at, size - at);
    Front(t, at, size - at - 1);
    EntryUnfolds(codec, ms, t[at..], xs, size - at, key, w);
  }

  method ScanEntry(codec: Codec, ms: seq<Member>, t: string, at: nat, xs: seq<Value>) returns (r: Scan<seq<Value>>)
    requires at < |t| && |xs| == |ms|
    ensures r.At? ==> at < r.n < |t| && |r.value| == |ms|
    ensures Left(t, r) == ReadEntry(codec, ms, t[at..], xs)
  {
    if t[at] == '=' { return Fail(MissingSpaces); }
    var equals := ScanToChar(t, at, '=');
    CharShifts(t, at, 0, '=');
    if equals.Lost? { return Fail(equals.error); }
    var size := equals.at;
    EqualsFound(t, at, size);
    EntryIs(codec, ms, t, at, xs, size, t[at..size - 1], t[size..]);
    if t[size - 1] != ' ' || size + 1 == |t| || t[size + 1] != ' ' { return Fail(MissingSpaces); }
    r := ScanAssign(codec, ms, t[at..size - 1], t, size, xs);
  }

  lemma EntriesUnfold(codec: Codec, ms: seq<Member>, u: string, xs: seq<Value>, space: Found, w: string)
    requires u != [] && space == SkipWhitespace(u, 0) && (space.Found? ==> w == u[space.at..])
    ensures ReadEntries(codec, ms, u, xs) == if space.Lost? then Err(space.error) else EntriesAt(codec, ms, w, xs)
  {
  }

  lemma EntriesAre(codec: Codec, ms: seq<Member>, t: string, at: nat, xs: seq<Value>, space: Found)
    requires at < |t| && space == SkipWhitespace(t, at)
    ensures ReadEntries(codec, ms, t[at..], xs) ==
      if space.Lost? then Err(space.error) else EntriesAt(codec, ms, t[space.at..], xs)
  {
    WhitespaceShifts(t, at);
    if space.Found? { Further(t, at, space.at - at); }
    EntriesUnfold(codec, ms, t[at..], xs, SkipWhitespace(t[at..], 0), if space.Found? then t[space.at..] else "");
  }

  /** read_key_values. */
  method ScanEntries(codec: Codec, ms: seq<Member>, t: string, at: nat, xs: seq<Value>) returns (r: Scan<seq<Value>>)
    requires at < |t| && |xs| == |ms|
    ensures r.At? ==> at <= r.n <= |t| && |r.value| == |ms|
    ensures Left(t, r) == ReadEntries(codec, ms, t[at..], xs)
  {
    var size, ys := at, xs;
    while true
      invariant at <= size < |t| && |ys| == |ms|
      invariant ReadEntries(codec, ms, t[at..], xs) == ReadEntries(codec, ms, t[size..], ys)
      decreases |t| - size
    {
      var space := ScanWhitespace(t, size);
      EntriesAre(codec, ms, t, size, ys, space);
      if space.Lost? { return Fail(space.error); }
      if space.at == |t| || t[space.at] == '[' { return At(space.at, ys); }
      var one := ScanEntry(codec, ms, t, space.at, ys);
      if one.Fail? { return Fail(one.error); }
      size, ys := one.n, one.value;
    }
  }

  method ScanSection(codec: Codec, ms: seq<Member>, t: string, at: nat, xs: seq<Value>) returns (r: Scan<seq<Value>>)
    requires at < |t| && |xs| == |ms|
    ensures r.At? ==> at < r.n <= |t| && |r.value| == |ms|
    ensures Left(t, r) == ReadSection(codec, ms, t[at..], xs)
  {
    var name := ScanHeader(t, at);
    if name.Fail? { return Fail(name.error); }
    var member := Find(KeysOf(ms), name.value);
    if member.None? { return Fail(UnexpectedHeader); }
    var s, i := ms[member.value].schema, member.value;
    if !s.RecordS? { return Fail(TypeMismatch); }
    var ys := ScanEntries(codec, s.members, t, name.n, RecordOf(s.members, xs[i]));
    if ys.Fail? { return Fail(ys.error); }
    r := At(ys.n, xs[i := RecordV(ys.value)]);
  }

  /** The loop of read_all over the sections. */
  method ScanSections(codec: Codec, ms: seq<Member>, t: string, at: nat, xs: seq<Value>) returns (r: Scan<seq<Value>>)
    requires at <= |t| && |xs| == |ms|
    ensures (r.At? ==> r.n <= |t|) && Left(t, r) == ReadSections(codec, ms, t[at..], xs)
  {
    var size, ys := at, xs;
    while size < |t|
      invariant at <= size <= |t| && |ys| == |ms|
      invariant ReadSections(codec, ms, t[at..], xs) == ReadSections(codec, ms, t[size..], ys)
      decreases |t| - size
    {
      var one := ScanSection(codec, ms, t, size, ys);
      if one.Fail? { return Fail(one.error); }
      size, ys := one.n, one.value;
    }
    r := At(size, ys);
  }

  /** structure_ini. */
  method ScanIni(codec: Codec, ms: seq<Member>, t: string, xs: seq<Value>) returns (r: Option<seq<Value>>)
    requires |xs| == |ms|
    ensures r == StructureIni(codec, ms, t, xs)
  {
    if |t| == 0 { return Some(xs); }
    if t[0] == '=' { return None; }
    assert t[0..] == t;
    var entries := ScanEntries(codec, ms, t, 0, xs);
    if entries.Fail? { return None; }
    var all := ScanSections(codec, ms, t, entries.n, entries.value);
    r := if all.Fail? then None else Some(all.value);
  }
}
