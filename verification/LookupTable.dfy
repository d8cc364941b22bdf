/** Tables of names: the first match wins, in either direction. */
module LookupTables {

  import opened Wrappers

  /** lookup_table_keys::find over the names from number i on. */
  function FindFrom(names: seq<string>, name: string, i: nat): (r: Option<nat>)
    requires i <= |names|
    ensures r.Some? ==> i <= r.value < |names| && names[r.value] == name
    ensures forall k :: i <= k < (if r.Some? then r.value else |names|) ==> names[k] != name
    decreases |names| - i
  {
    if i == |names| then None
    else if names[i] == name then Some(i)
    else FindFrom(names, name, i + 1)
  }

  function Find(names: seq<string>, name: string): (r: Option<nat>)
    ensures r.Some? ==> r.value < |names| && names[r.value] == name
    ensures forall k :: 0 <= k < (if r.Some? then r.value else |names|) ==> names[k] != name
  {
    FindFrom(names, name, 0)
  }

  predicate Distinct(names: seq<string>) {
    forall i, j :: 0 <= i < j < |names| ==> names[i] != names[j]
  }

  lemma FindDistinct(names: seq<string>, i: nat)
    requires Distinct(names) && i < |names|
    ensures Find(names, names[i]) == Some(i)
  {
    var r := Find(names, names[i]);
    assert r.Some?;
    assert names[r.value] == names[i];
  }

  /** The named values of an enumeration. */
  datatype NamedValues = NamedValues(names: seq<string>, values: seq<int>)
  type Enumeration = e: NamedValues | |e.names| == |e.values| witness NamedValues([], [])

  function FindValueFrom(e: Enumeration, value: int, i: nat): (r: Option<nat>)
    requires i <= |e.values|
    ensures r.Some? ==> i <= r.value < |e.values| && e.values[r.value] == value
    ensures forall k :: i <= k < (if r.Some? then r.value else |e.values|) ==> e.values[k] != value
    decreases |e.values| - i
  {
    if i == |e.values| then None
    else if e.values[i] == value then Some(i)
    else FindValueFrom(e, value, i + 1)
  }

  function FindValue(e: Enumeration, value: int): (r: Option<nat>)
    ensures r.Some? ==> r.value < |e.values| && e.values[r.value] == value
    ensures forall k :: 0 <= k < (if r.Some? then r.value else |e.values|) ==> e.values[k] != value
  {
    FindValueFrom(e, value, 0)
  }

  /** get_key: the first name of a value that has one. */
  function NameOf(e: Enumeration, value: int): (name: string)
    requires value in e.values
  {
    e.names[FindValue(e, value).value]
  }

  /** What a name reads back as. */
  function ValueOf(e: Enumeration, name: string): (r: Option<int>)
  {
    match Find(e.names, name)
    case Some(i) => Some(e.values[i])
    case None => None
  }

  /** Writing a value's name and looking it up again gives the value back. */
  lemma NameRoundTrip(e: Enumeration, value: int)
    requires Distinct(e.names) && value in e.values
    ensures ValueOf(e, NameOf(e, value)) == Some(value)
  {
    FindDistinct(e.names, FindValue(e, value).value);
  }
}
