/** Lists of file names kept as one string, the names separated by semicolons, and
    edited in place as files come and go. */
module FileLists {

  import opened Strings

  predicate Plain(name: string) {
    name != [] && ';' !in name
  }

  predicate Proper(names: seq<string>) {
    (forall i :: 0 <= i < |names| ==> Plain(names[i])) && forall i, j :: 0 <= i < j < |names| ==> names[i] != names[j]
  }

  /** The string that stands for a list of names. */
  function Join(names: seq<string>): (t: string) {
    JoinFrom(names, 0)
  }

  function JoinFrom(names: seq<string>, i: nat): (t: string)
    requires i <= |names|
    decreases |names| - i
  {
    if i == |names| then "" else if i + 1 == |names| then names[i] else names[i] + (";" + JoinFrom(names, i + 1))
  }

  // The list operations the string edits stand for.

  function Insert(names: seq<string>, name: string): (r: seq<string>) {
    if name in names then names else names + [name]
  }

  function Delete(names: seq<string>, name: string): (r: seq<string>) {
    if names == [] then [] else if names[0] == name then names[1..] else [names[0]] + Delete(names[1..], name)
  }

  function Minus(names: seq<string>, others: seq<string>): (r: seq<string>) {
    if names == [] then []
    else if names[0] in others then Minus(names[1..], others)
    else [names[0]] + Minus(names[1..], others)
  }

  // --------------------------------------------------------- names and places

  /** The first k names, each with its semicolon. */
  function Front(names: seq<string>, k: nat): (t: string)
    requires k <= |names|
  {
    if k == 0 then "" else Front(names, k - 1) + (names[k - 1] + ";")
  }

  /** Name k and what follows it. */
  lemma {:induction false} Cut(names: seq<string>, k: nat)
    requires k < |names|
    ensures Join(names) == Front(names, k) + JoinFrom(names, k)
  {
    if k == 0 {
      assert "" + JoinFrom(names, 0) == JoinFrom(names, 0);
    } else {
      Cut(names, k - 1);
      CutNext(Join(names), Front(names, k - 1), names[k - 1], JoinFrom(names, k));
    }
  }

  lemma CutNext(t: string, f: string, name: string, rest: string)
    requires t == f + (name + (";" + rest))
    ensures t == (f + (name + ";")) + rest
  {
    Assoc(name, ";", rest);
    Assoc(f, name + ";", rest);
  }

  /** The string depends only on the names from i on. */
  lemma {:induction false} JoinShift(a: seq<string>, i: nat, b: seq<string>, j: nat)
    requires i <= |a| && j <= |b| && a[i..] == b[j..]
    ensures JoinFrom(a, i) == JoinFrom(b, j)
    decreases |a| - i
  {
    assert |a[i..]| == |b[j..]|;
    if i < |a| {
      assert a[i..][0] == b[j..][0] && a[i..][1..] == a[i + 1..] && b[j..][1..] == b[j + 1..];
      JoinShift(a, i + 1, b, j + 1);
    }
  }

  function FindSplit(t: string, i: nat): (j: nat)
    requires i <= |t|
    ensures i <= j <= |t|
    decreases |t| - i
  {
    if i == |t| || t[i] == ';' then i else FindSplit(t, i + 1)
  }

  lemma {:induction false} FindsSplit(t: string, i: nat, j: nat)
    requires i <= j <= |t| && (forall k :: i <= k < j ==> t[k] != ';') && (j < |t| ==> t[j] == ';')
    ensures FindSplit(t, i) == j
    decreases j - i
  {
    if i < j { FindsSplit(t, i + 1, j); }
  }

  lemma MiddlePiece(t: string, f: string, name: string, rest: string)
    requires t == f + (name + (";" + rest))
    ensures var i, j := |f|, |f| + |name|;
      j < |t| && t[..i] == f && t[i..j] == name && t[j] == ';' && t[j + 1..] == rest
  {
    CutNext(t, f, name, rest);
  }

  lemma LastPiece(t: string, f: string, name: string)
    requires t == f + name
    ensures |f| + |name| == |t| && t[..|f|] == f && t[|f|..|t|] == name
  {
  }

  /** A name that is not the last, and what follows its semicolon. */
  lemma MiddleName(names: seq<string>, k: nat, t: string, f: string, rest: string)
    requires k < |names| - 1 && t == Join(names) && f == Front(names, k) && rest == JoinFrom(names, k + 1)
    ensures var i, j := |f|, |f| + |names[k]|;
      j < |t| && t[..i] == f && t[i..j] == names[k] && t[j] == ';' && t[j + 1..] == rest
  {
    Cut(names, k);
    MiddlePiece(t, f, names[k], rest);
  }

  lemma LastName(names: seq<string>, t: string, f: string)
    requires names != [] && t == Join(names) && f == Front(names, |names| - 1)
    ensures var name := names[|names| - 1]; |f| + |name| == |t| && t[..|f|] == f && t[|f|..|t|] == name
  {
    Cut(names, |names| - 1);
    LastPiece(t, f, names[|names| - 1]);
  }

  lemma SplitFound(t: string, i: nat, name: string)
    requires i + |name| <= |t| && t[i..i + |name|] == name && ';' !in name
    requires (i + |name| < |t| ==> t[i + |name|] == ';')
    ensures FindSplit(t, i) == i + |name|
  {
    forall m | i <= m < i + |name| ensures t[m] != ';' { assert t[i..i + |name|][m - i] == t[m]; }
    FindsSplit(t, i, i + |name|);
  }

  /** Where name k stands in the string: the search for a semicolon ends behind it. */
  lemma NameAt(names: seq<string>, k: nat)
    requires k < |names| && Plain(names[k])
    ensures var t, i := Join(names), |Front(names, k)|; var j := i + |names[k]|;
      && j <= |t| && t[i..j] == names[k] && FindSplit(t, i) == j
      && (j == |t| <==> k == |names| - 1)
      && (j < |t| ==> t[j] == ';' && j + 1 == |Front(names, k + 1)|)
  {
    var t, f := Join(names), Front(names, k);
    if k == |names| - 1 { LastName(names, t, f); } else { MiddleName(names, k, t, f, JoinFrom(names, k + 1)); }
    SplitFound(t, |f|, names[k]);
  }

  predicate First(names: seq<string>, k: nat) {
    k < |names| && forall i :: 0 <= i < k ==> names[i] != names[k]
  }

  /** Erasing name k with the semicolon behind it. */
  lemma ErasedMiddle(names: seq<string>, k: nat, i: nat, j: nat)
    requires First(names, k) && k < |names| - 1 && i == |Front(names, k)| && j == i + |names[k]|
    ensures j < |Join(names)| && Join(names)[..i] + Join(names)[j + 1..] == Join(Delete(names, names[k]))
  {
    MiddleName(names, k, Join(names), Front(names, k), JoinFrom(names, k + 1));
    DeleteAt(names, k);
    WithoutMiddle(names, k);
  }

  lemma WithoutMiddle(names: seq<string>, k: nat)
    requires k < |names| - 1
    ensures Join(names[..k] + names[k + 1..]) == Front(names, k) + JoinFrom(names, k + 1)
  {
    var left := names[..k] + names[k + 1..];
    FrontOf(names, left, k);
    Cut(left, k);
    assert left[k..] == names[k + 1..];
    JoinShift(left, k, names, k + 1);
  }

  /** Erasing the last name with the semicolon before it. */
  lemma ErasedLast(names: seq<string>, k: nat, i: nat)
    requires First(names, k) && k == |names| - 1 && i == |Front(names, k)|
    ensures (if k == 0 then 0 else i - 1) <= |Join(names)| && (k > 0 ==> i > 0)
    ensures Join(names)[..if k == 0 then 0 else i - 1] == Join(Delete(names, names[k]))
  {
    DeleteAt(names, k);
    assert names[..k] + names[k + 1..] == names[..k];
    if k > 0 { WithoutLast(names, Join(names), Front(names, k)); }
  }

  lemma WithoutLast(names: seq<string>, t: string, f: string)
    requires |names| > 1 && t == Join(names) && f == Front(names, |names| - 1)
    ensures 0 < |f| <= |t| && t[..|f| - 1] == Join(names[..|names| - 1])
  {
    LastName(names, t, f);
    FrontIs(names, names[..|names| - 1]);
    DropEnd(t, f, Join(names[..|names| - 1]));
  }

  lemma FrontIs(names: seq<string>, left: seq<string>)
    requires |names| > 1 && left == names[..|names| - 1]
    ensures Front(names, |names| - 1) == Join(left) + ";"
  {
    FrontOf(names, left, |left|);
    FrontEnds(left);
  }

  lemma DropEnd(t: string, f: string, left: string)
    requires |f| <= |t| && t[..|f|] == f && f == left + ";"
    ensures t[..|f| - 1] == left
  {
    assert t[..|f|][..|f| - 1] == t[..|f| - 1];
  }

  lemma {:induction false} FrontOf(names: seq<string>, others: seq<string>, k: nat)
    requires k <= |names| && k <= |others| && names[..k] == others[..k]
    ensures Front(names, k) == Front(others, k)
  {
    if k > 0 {
      assert names[..k][..k - 1] == names[..k - 1] && others[..k][..k - 1] == others[..k - 1];
      assert names[..k][k - 1] == others[..k][k - 1];
      FrontOf(names, others, k - 1);
    }
  }

  lemma FrontEnds(names: seq<string>)
    requires names != []
    ensures Front(names, |names|) == Join(names) + ";"
  {
    var k := |names| - 1;
    Cut(names, k);
    Assoc(Front(names, k), names[k], ";");
  }

  lemma Appended(names: seq<string>, name: string)
    requires names != []
    ensures Join(names + [name]) == Join(names) + (";" + name)
  {
    var all, k := names + [name], |names|;
    Cut(all, k);
    FrontOf(all, names, k);
    FrontEnds(names);
    Assoc(Join(names), ";", name);
  }

  // ----------------------------------------------------------- the operations

  lemma {:induction false} DeleteAt(names: seq<string>, k: nat)
    requires k < |names| && forall i :: 0 <= i < k ==> names[i] != names[k]
    ensures Delete(names, names[k]) == names[..k] + names[k + 1..]
  {
    if k > 0 {
      var rest := names[1..];
      DeleteAt(rest, k - 1);
      assert [names[0]] + (rest[..k - 1] + rest[k..]) == names[..k] + names[k + 1..];
    }
  }

  lemma {:induction false} DeleteAbsent(names: seq<string>, name: string)
    requires name !in names
    ensures Delete(names, name) == names
  {
    if names != [] { DeleteAbsent(names[1..], name); }
  }

  lemma InsertKeeps(names: seq<string>, name: string)
    requires Proper(names) && Plain(name)
    ensures Proper(Insert(names, name))
  {
  }

  lemma {:induction false} DeleteKeeps(names: seq<string>, name: string)
    requires Proper(names)
    ensures Proper(Delete(names, name))
    ensures forall n :: n in Delete(names, name) <==> n in names && n != name
  {
    if name in names {
      var k :| 0 <= k < |names| && names[k] == name;
      DeleteAt(names, k);
    } else {
      DeleteAbsent(names, name);
    }
  }

  /** The names not among the others, in their order. */
  lemma {:induction false} MinusLaw(names: seq<string>, others: seq<string>)
    requires Proper(names)
    ensures Proper(Minus(names, others))
    ensures forall n :: n in Minus(names, others) <==> n in names && n !in others
  {
    if names != [] {
      MinusLaw(names[1..], others);
      assert forall n :: n in names <==> n == names[0] || n in names[1..];
    }
  }

  lemma {:induction false} MinusNothing(names: seq<string>)
    ensures Minus(names, []) == names
  {
    if names != [] { MinusNothing(names[1..]); }
  }

  lemma OneMore(others: seq<string>, k: nat, name: string)
    requires k < |others|
    ensures name in others[..k + 1] <==> name in others[..k] || name == others[k]
  {
    assert others[..k + 1] == others[..k] + [others[k]];
  }

  /** Deleting one more of the others. */
  lemma {:induction false} MinusNext(names: seq<string>, others: seq<string>, k: nat)
    requires Proper(names) && k < |others|
    ensures Delete(Minus(names, others[..k]), others[k]) == Minus(names, others[..k + 1])
  {
    if names != [] {
      var rest := Minus(names[1..], others[..k]);
      MinusNext(names[1..], others, k);
      OneMore(others, k, names[0]);
      if names[0] !in others[..k] {
        assert ([names[0]] + rest)[1..] == rest;
        if names[0] == others[k] {
          MinusLaw(names[1..], others[..k]);
          DeleteAbsent(rest, others[k]);
        }
      }
    }
  }

  lemma SplitInside(t: string, begin: nat, skip: nat, split: nat)
    requires begin <= split < skip <= |t| && t[split] == ';'
    ensures ';' in t[begin..skip]
  {
    assert t[begin..skip][split - begin] == ';';
  }

  lemma TwoParts(t: string, begin: nat, skip: nat, split: nat, subdir: string, filename: string)
    requires begin <= skip <= split <= |t| && skip == begin + |subdir|
    ensures t[begin..split] == subdir + filename <==> t[begin..skip] == subdir && t[skip..split] == filename
  {
    var name := t[begin..split];
    assert name == t[begin..skip] + t[skip..split];
    assert name[..|subdir|] == t[begin..skip] && name[|subdir|..] == t[skip..split];
    assert (subdir + filename)[..|subdir|] == subdir && (subdir + filename)[|subdir|..] == filename;
  }

  /** A name is looked for in two parts, the second up to the semicolon. */
  lemma SameName(t: string, begin: nat, split: nat, subdir: string, filename: string)
    requires begin <= split <= |t| && ';' !in subdir && (split < |t| ==> t[split] == ';')
    ensures begin + |subdir| <= |t| && t[begin..begin + |subdir|] == subdir ==> begin + |subdir| <= split
    ensures t[begin..split] == subdir + filename <==>
      begin + |subdir| <= split && t[begin..begin + |subdir|] == subdir && t[begin + |subdir|..split] == filename
  {
    var skip := begin + |subdir|;
    if split < skip <= |t| { SplitInside(t, begin, skip, split); }
    if skip <= split { TwoParts(t, begin, skip, split, subdir, filename); }
  }

  /** The loop of add_file: is the name there? */
  method HasName(files: string, subdir: string, filename: string, ghost names: seq<string>) returns (found: bool)
    requires files == Join(names) && Proper(names) && files != [] && ';' !in subdir
    ensures found <==> subdir + filename in names
  {
    ghost var name := subdir + filename;
    ghost var k := 0;
    var begin := 0;
    if names == [] { assert false; }
    while true
      invariant k < |names| && begin == |Front(names, k)| <= |files|
      invariant forall i :: 0 <= i < k ==> names[i] != name
      decreases |names| - k
    {
      NameAt(names, k);
      var split := FindSplit(files, begin);
      SameName(files, begin, split, subdir, filename);
      if begin + |subdir| <= |files| && files[begin..begin + |subdir|] == subdir {
        if files[begin + |subdir|..split] == filename { return true; }
      }
      if split == |files| { return false; }
      begin, k := split + 1, k + 1;
    }
  }

  /** What remove_file erases. */
  datatype Erasure = Nothing | Range(from: nat, to: nat)

  /** The loop of remove_file: the name with the semicolon behind it, or the last name
      with the one before it. */
  method FindErasure(files: string, subdir: string, filename: string, ghost names: seq<string>) returns (e: Erasure)
    requires files == Join(names) && Proper(names) && ';' !in subdir && filename != []
    ensures e.Nothing? ==> subdir + filename !in names
    ensures e.Range? ==> e.from <= e.to <= |files| && subdir + filename in names
    ensures e.Range? ==> files[..e.from] + files[e.to..] == Join(Delete(names, subdir + filename))
  {
    ghost var name := subdir + filename;
    ghost var k := 0;
    var begin, prev := 0, 0;
    EmptyList(names);
    if |files| == 0 { return Nothing; }
    while true
      invariant k < |names| && begin == |Front(names, k)| <= |files| && prev == if k == 0 then 0 else begin - 1
      invariant forall i :: 0 <= i < k ==> names[i] != name
      decreases |names| - k
    {
      NameAt(names, k);
      var split := FindSplit(files, begin);
      SameName(files, begin, split, subdir, filename);
      if split == |files| { break; }
      if begin + |subdir| <= split && files[begin..begin + |subdir|] == subdir &&
          files[begin + |subdir|..split] == filename {
        ErasedMiddle(names, k, begin, split);
        return Range(begin, split + 1);
      }
      prev, begin, k := split, split + 1, k + 1;
    }
    if begin + |subdir| <= |files| && files[begin..begin + |subdir|] == subdir &&
        files[begin + |subdir|..] == filename {
      ErasedLast(names, k, begin);
      assert files[..prev] + files[|files|..] == files[..prev];
      return Range(prev, |files|);
    }
    return Nothing;
  }

  lemma EmptyList(names: seq<string>)
    requires Proper(names)
    ensures Join(names) == [] <==> names == []
  {
    if names != [] { NameAt(names, 0); }
  }

  class FileList {
    var files: string

    constructor (files: string)
      ensures this.files == files
    {
      this.files := files;
    }

    /** add_file: appends the name unless it is there. */
    method AddFile(subdir: string, filename: string, ghost names: seq<string>) returns (added: bool)
      requires files == Join(names) && Proper(names) && ';' !in subdir && Plain(filename)
      modifies this
      ensures files == Join(Insert(names, subdir + filename)) && Proper(Insert(names, subdir + filename))
      ensures added <==> subdir + filename !in names
    {
      ghost var name := subdir + filename;
      InsertKeeps(names, name);
      EmptyList(names);
      if |files| != 0 {
        var found := HasName(files, subdir, filename, names);
        if found { return false; }
        Appended(names, name);
        files := files + ";";
      }
      files := files + subdir;
      files := files + filename;
      Assoc(Join(names) + ";", subdir, filename);
      Assoc(Join(names), ";", name);
      added := true;
    }

    /** remove_file: deletes the name if it is there. */
    method RemoveFile(subdir: string, filename: string, ghost names: seq<string>) returns (removed: bool)
      requires files == Join(names) && Proper(names) && ';' !in subdir && filename != []
      modifies this
      ensures files == Join(Delete(names, subdir + filename)) && Proper(Delete(names, subdir + filename))
      ensures removed <==> subdir + filename in names
    {
      DeleteKeeps(names, subdir + filename);
      var e := FindErasure(files, subdir, filename, names);
      if e.Nothing? {
        DeleteAbsent(names, subdir + filename);
        return false;
      }
      files := files[..e.from] + files[e.to..];
      removed := true;
    }

    /** remove_duplicates: deletes every name of the other list. */
    method RemoveDuplicates(duplicates: string, ghost names: seq<string>, ghost others: seq<string>)
      requires files == Join(names) && Proper(names) && duplicates == Join(others) && Proper(others)
      modifies this
      ensures files == Join(Minus(names, others)) && Proper(Minus(names, others))
    {
      MinusNothing(names);
      MinusLaw(names, others);
      EmptyList(others);
      if |duplicates| == 0 { return; }
      var begin := 0;
      ghost var k := 0;
      assert others[..0] == [] && "" == Front(others, 0);
      while true
        invariant k < |others| && begin == |Front(others, k)| <= |duplicates|
        invariant files == Join(Minus(names, others[..k]))
        decreases |others| - k
      {
        NameAt(others, k);
        MinusLaw(names, others[..k]);
        var split := FindSplit(duplicates, begin);
        var gone := RemoveFile("", duplicates[begin..split], Minus(names, others[..k]));
        assert "" + others[k] == others[k];
        MinusNext(names, others, k);
        if split == |duplicates| {
          assert others[..k + 1] == others;
          break;
        }
        begin, k := split + 1, k + 1;
      }
    }

    /** ScanChangeWork: a batch of files that came and went, and which of the files
        before are gone. */
    method ScanChange(subdir: string, changes: seq<string>, ghost names: seq<string>)
      returns (existing: string, removed: string)
      requires files == Join(names) && Proper(names) && ';' !in subdir && Changes(changes)
      modifies this
      ensures files == existing == Join(Replay(names, subdir, changes)) && Proper(Replay(names, subdir, changes))
      ensures removed == Join(Minus(names, Replay(names, subdir, changes)))
    {
      var before := new FileList(files);
      ghost var now := names;
      for i := 0 to |changes|
        invariant files == Join(now) && Proper(now) && now == Replay(names, subdir, changes[..i])
        invariant before != this && before.files == old(files)
      {
        ReplayNext(names, subdir, changes, i);
        ghost var next := Step(now, subdir, changes[i]);
        if changes[i][0] == '+' {
          var added := AddFile(subdir, changes[i][1..], now);
        } else {
          var gone := RemoveFile(subdir, changes[i][1..], now);
        }
        now := next;
      }
      assert changes[..|changes|] == changes;
      before.RemoveDuplicates(files, names, now);
      return files, before.files;
    }
  }

  // ------------------------------------------------------------------ batches

  /** A sign and the name of a file that came or went. */
  predicate Change(change: string) {
    change != [] && (change[0] == '+' || change[0] == '-') && Plain(change[1..])
  }

  predicate Changes(changes: seq<string>) {
    forall i :: 0 <= i < |changes| ==> Change(changes[i])
  }

  function Step(names: seq<string>, subdir: string, change: string): (r: seq<string>)
    requires change != []
  {
    if change[0] == '+' then Insert(names, subdir + change[1..]) else Delete(names, subdir + change[1..])
  }

  function Replay(names: seq<string>, subdir: string, changes: seq<string>): (r: seq<string>)
    requires Changes(changes)
  {
    if changes == [] then names
    else Step(Replay(names, subdir, changes[..|changes| - 1]), subdir, changes[|changes| - 1])
  }

  lemma ReplayNext(names: seq<string>, subdir: string, changes: seq<string>, i: nat)
    requires Changes(changes) && i < |changes|
    ensures Replay(names, subdir, changes[..i + 1]) == Step(Replay(names, subdir, changes[..i]), subdir, changes[i])
  {
    assert changes[..i + 1][..i] == changes[..i];
  }

  /** What the last change of a file says; before any change the old list says it. */
  function Present(names: seq<string>, subdir: string, changes: seq<string>, name: string): (present: bool)
    requires Changes(changes)
  {
    if changes == [] then name in names
    else
      var last := changes[|changes| - 1];
      if subdir + last[1..] == name then last[0] == '+' else Present(names, subdir, changes[..|changes| - 1], name)
  }

  lemma {:induction false} ReplayLaw(names: seq<string>, subdir: string, changes: seq<string>)
    requires Proper(names) && Changes(changes) && ';' !in subdir
    ensures Proper(Replay(names, subdir, changes))
    ensures forall n :: n in Replay(names, subdir, changes) <==> Present(names, subdir, changes, n)
  {
    if changes != [] {
      var before, last := changes[..|changes| - 1], changes[|changes| - 1];
      ReplayLaw(names, subdir, before);
      var now := Replay(names, subdir, before);
      InsertKeeps(now, subdir + last[1..]);
      DeleteKeeps(now, subdir + last[1..]);
    }
  }

  /** After a batch the removed files are exactly those that were there and whose last
      change says they went. */
  lemma BatchLaw(names: seq<string>, subdir: string, changes: seq<string>)
    requires Proper(names) && Changes(changes) && ';' !in subdir
    ensures Proper(Minus(names, Replay(names, subdir, changes)))
    ensures forall n :: n in Minus(names, Replay(names, subdir, changes)) <==>
      n in names && !Present(names, subdir, changes, n)
  {
    ReplayLaw(names, subdir, changes);
    MinusLaw(names, Replay(names, subdir, changes));
  }

  // ------------------------------------------------------- one string, one list

  /** Different lists are different strings. */
  lemma JoinInjective(a: seq<string>, b: seq<string>)
    requires Proper(a) && Proper(b) && Join(a) == Join(b)
    ensures a == b
  {
    EmptyList(a);
    EmptyList(b);
    if a != [] && b != [] { SameFrom(a, b, 0); }
  }

  lemma {:induction false} SameFrom(a: seq<string>, b: seq<string>, k: nat)
    requires Proper(a) && Proper(b) && Join(a) == Join(b) && k < |a| && k < |b| && a[..k] == b[..k]
    ensures a == b
    decreases |a| - k
  {
    FrontOf(a, b, k);
    NameAt(a, k);
    NameAt(b, k);
    assert a[..k + 1] == a[..k] + [a[k]] && b[..k + 1] == b[..k] + [b[k]];
    if k + 1 < |a| {
      SameFrom(a, b, k + 1);
    } else {
      assert a[..k + 1] == a && b[..k + 1] == b;
    }
  }
}
