/** The registered directories and their aliases, changed by messages that arrive
    one at a time. */
module Directories {

  import opened FilePaths

  type Alias = int

  const WORKING_DIRECTORY: Alias := 0

  /** count is one less than the number of aliases; a temporary directory is not shared. */
  datatype Directory = Shared(count: int) | Temporary

  /** Directories are found by their path, whose hash is taken to be injective. */
  datatype State = State(directories: map<string, Directory>, aliases: map<Alias, string>)

  datatype Message =
    | Register(alias: Alias, path: string, parent: Alias)
    | RegisterTemporary(alias: Alias, made: string)
    | Unregister(alias: Alias)

  /** system::construct. */
  function Initial(root: string): (st: State) {
    State(map[root := Shared(0)], map[WORKING_DIRECTORY := root])
  }

  function AliasesOf(aliases: map<Alias, string>, p: string): (s: set<Alias>) {
    set a | a in aliases && aliases[a] == p
  }

  // ------------------------------------------------------------- the handlers

  /** The directory a registration asks for: none if the alias is taken, the parent is
      not known or the path is not accepted. */
  function Target(st: State, alias: Alias, path: string, parent: Alias): (t: string) {
    if alias in st.aliases || parent !in st.aliases || !Good(Components(path)) then ""
    else
      var dirpath := st.aliases[parent];
      if dirpath in st.directories && EndsInSlash(dirpath) then Resolve(dirpath, path) else ""
  }

  function Step(st: State, m: Message): (st': State) {
    match m
    case Register(alias, path, parent) =>
      var p := Target(st, alias, path, parent);
      if p == "" then st
      else if p !in st.directories then State(st.directories[p := Shared(0)], st.aliases[alias := p])
      else if st.directories[p].Temporary? then st
      else State(st.directories[p := Shared(st.directories[p].count + 1)], st.aliases[alias := p])
    case RegisterTemporary(alias, made) =>
      if alias in st.aliases || made + "/" in st.directories then st
      else State(st.directories[made + "/" := Temporary], st.aliases[alias := made + "/"])
    case Unregister(alias) =>
      if alias !in st.aliases || st.aliases[alias] !in st.directories then st
      else
        var p := st.aliases[alias];
        var d := st.directories[p];
        if d.Temporary? || d.count - 1 < 0 then State(st.directories - {p}, st.aliases - {alias})
        else State(st.directories[p := Shared(d.count - 1)], st.aliases - {alias})
  }

  function Run(st: State, ms: seq<Message>): (st': State) {
    if ms == [] then st else Step(Run(st, ms[..|ms| - 1]), ms[|ms| - 1])
  }

  // --------------------------------------------------------------- the invariant

  /** How many aliases a directory of this kind has. */
  ghost predicate Counted(d: Directory, aliases: set<Alias>) {
    match d
    case Shared(count) => count >= 0 && count + 1 == |aliases|
    case Temporary => |aliases| == 1
  }

  /** The path is one of the roots followed by plain components. */
  ghost predicate Below(roots: set<string>, p: string) {
    exists root, cs :: root in roots && EndsInSlash(root) && AllPlain(cs) && p == root + Steps(cs)
  }

  ghost predicate Inv(st: State, roots: set<string>) {
    && (forall a :: a in st.aliases ==> st.aliases[a] in st.directories)
    && (forall p :: p in st.directories ==> Counted(st.directories[p], AliasesOf(st.aliases, p)))
    && (forall p :: p in st.directories ==> Below(roots, p))
  }

  // --------------------------------------------------------------- its keeping

  lemma AliasAdded(aliases: map<Alias, string>, a: Alias, p: string, q: string)
    requires a !in aliases
    ensures AliasesOf(aliases[a := p], q) == if q == p then AliasesOf(aliases, q) + {a} else AliasesOf(aliases, q)
    ensures |AliasesOf(aliases[a := p], p)| == |AliasesOf(aliases, p)| + 1
  {
    assert AliasesOf(aliases[a := p], p) == AliasesOf(aliases, p) + {a};
  }

  lemma AliasRemoved(aliases: map<Alias, string>, a: Alias, q: string)
    requires a in aliases
    ensures AliasesOf(aliases - {a}, q) == if q == aliases[a] then AliasesOf(aliases, q) - {a}
      else AliasesOf(aliases, q)
    ensures |AliasesOf(aliases - {a}, aliases[a])| == |AliasesOf(aliases, aliases[a])| - 1
  {
    assert AliasesOf(aliases - {a}, aliases[a]) == AliasesOf(aliases, aliases[a]) - {a};
  }

  lemma NoAliases(st: State, roots: set<string>, p: string)
    requires Inv(st, roots) && p !in st.directories
    ensures AliasesOf(st.aliases, p) == {}
  {
    assert forall a :: a in st.aliases ==> st.aliases[a] != p;
  }

  lemma BelowGrows(roots: set<string>, more: set<string>, p: string)
    requires Below(roots, p) && roots <= more
    ensures Below(more, p) && EndsInSlash(p)
  {
    var root, cs :| root in roots && EndsInSlash(root) && AllPlain(cs) && p == root + Steps(cs);
    StepsEnd(root, cs);
  }

  lemma {:induction false} StepsEnd(root: string, cs: seq<string>)
    requires EndsInSlash(root)
    ensures EndsInSlash(root + Steps(cs))
    decreases cs
  {
    if cs == [] {
      assert root + Steps(cs) == root;
    } else {
      StepsEnd("/", cs[1..]);
      var t := "/" + Steps(cs[1..]);
      assert (root + Steps(cs))[|root + Steps(cs)| - 1] == t[|t| - 1];
    }
  }

  lemma BelowDown(roots: set<string>, p: string, path: string)
    requires Below(roots, p) && EndsInSlash(p) && Good(Components(path))
    ensures Below(roots, Resolve(p, path))
  {
    var root, cs :| root in roots && EndsInSlash(root) && AllPlain(cs) && p == root + Steps(cs);
    ResolveLaw(p, path);
    var down := DownFrom(path, 0);
    FurtherDown(root, cs, down);
    assert AllPlain(cs + down);
  }

  lemma FurtherDown(root: string, cs: seq<string>, down: seq<string>)
    ensures (root + Steps(cs)) + Steps(down) == root + Steps(cs + down)
  {
    StepsJoin(cs, down);
  }

  lemma BelowSelf(roots: set<string>, p: string)
    requires p in roots && EndsInSlash(p)
    ensures Below(roots, p)
  {
    var none: seq<string> := [];
    assert p == p + Steps(none) && AllPlain(none);
  }

  /** The roots a message can add. */
  function Roots(roots: set<string>, m: Message): (r: set<string>) {
    if m.RegisterTemporary? then roots + {m.made + "/"} else roots
  }

  lemma KeepRegister(st: State, roots: set<string>, m: Message)
    requires Inv(st, roots) && m.Register?
    ensures Inv(Step(st, m), roots)
  {
    var p := Target(st, m.alias, m.path, m.parent);
    var st' := Step(st, m);
    if st' != st {
      BelowDown(roots, st.aliases[m.parent], m.path);
      AliasAdded(st.aliases, m.alias, p, p);
      if p !in st.directories { NoAliases(st, roots, p); }
      forall q | q in st'.directories ensures Counted(st'.directories[q], AliasesOf(st'.aliases, q)) {
        AliasAdded(st.aliases, m.alias, p, q);
      }
    }
  }

  lemma KeepTemporary(st: State, roots: set<string>, m: Message)
    requires Inv(st, roots) && m.RegisterTemporary?
    ensures Inv(Step(st, m), Roots(roots, m))
  {
    var p, st' := m.made + "/", Step(st, m);
    forall q | q in st.directories ensures Below(Roots(roots, m), q) { BelowGrows(roots, Roots(roots, m), q); }
    if st' != st {
      BelowSelf(Roots(roots, m), p);
      AliasAdded(st.aliases, m.alias, p, p);
      NoAliases(st, roots, p);
      forall q | q in st'.directories ensures Counted(st'.directories[q], AliasesOf(st'.aliases, q)) {
        AliasAdded(st.aliases, m.alias, p, q);
      }
    }
  }

  lemma OnlyAlias(st: State, roots: set<string>, alias: Alias)
    requires Inv(st, roots) && alias in st.aliases
    ensures var p := st.aliases[alias];
      p in st.directories && (|AliasesOf(st.aliases, p)| == 1 ==> AliasesOf(st.aliases, p) == {alias})
  {
    var s := AliasesOf(st.aliases, st.aliases[alias]);
    assert alias in s;
    if |s| == 1 {
      assert |s - {alias}| == 0;
      assert s == {alias};
    }
  }

  lemma KeepUnregister(st: State, roots: set<string>, m: Message)
    requires Inv(st, roots) && m.Unregister?
    ensures Inv(Step(st, m), roots)
  {
    var st' := Step(st, m);
    if m.alias in st.aliases {
      var p := st.aliases[m.alias];
      OnlyAlias(st, roots, m.alias);
      forall q | q in st'.directories ensures Counted(st'.directories[q], AliasesOf(st'.aliases, q)) {
        AliasRemoved(st.aliases, m.alias, q);
      }
      forall a | a in st'.aliases ensures st'.aliases[a] in st'.directories {
        if st.aliases[a] == p { assert a in AliasesOf(st.aliases, p); }
      }
    }
  }

  lemma KeepStep(st: State, roots: set<string>, m: Message)
    requires Inv(st, roots)
    ensures Inv(Step(st, m), Roots(roots, m))
  {
    match m
    case Register(_, _, _) => KeepRegister(st, roots, m);
    case RegisterTemporary(_, _) => KeepTemporary(st, roots, m);
    case Unregister(_) => KeepUnregister(st, roots, m);
  }

  /** The root and the temporary directories that were ever made. */
  function AllRoots(root: string, ms: seq<Message>): (roots: set<string>) {
    if ms == [] then {root} else Roots(AllRoots(root, ms[..|ms| - 1]), ms[|ms| - 1])
  }

  lemma StartsWell(root: string)
    requires EndsInSlash(root)
    ensures Inv(Initial(root), {root})
  {
    BelowSelf({root}, root);
    assert AliasesOf(Initial(root).aliases, root) == {WORKING_DIRECTORY};
  }

  lemma {:induction false} KeepRun(root: string, ms: seq<Message>)
    requires EndsInSlash(root)
    ensures Inv(Run(Initial(root), ms), AllRoots(root, ms))
  {
    if ms == [] {
      StartsWell(root);
    } else {
      KeepRun(root, ms[..|ms| - 1]);
      KeepStep(Run(Initial(root), ms[..|ms| - 1]), AllRoots(root, ms[..|ms| - 1]), ms[|ms| - 1]);
    }
  }

  // -------------------------------------------------------------- what follows

  /** In every reachable state each alias names a directory that is there, a plain
      directory counts its aliases, a temporary one has exactly one, a directory is
      there exactly as long as it has an alias, and its path leads down by plain steps
      from the root or a temporary directory. */
  lemma RunsAreSafe(root: string, ms: seq<Message>)
    requires EndsInSlash(root)
    ensures var st := Run(Initial(root), ms);
      && (forall a :: a in st.aliases ==> st.aliases[a] in st.directories)
      && (forall p :: p in st.directories && st.directories[p].Shared? ==>
           st.directories[p].count + 1 == |AliasesOf(st.aliases, p)|)
      && (forall p :: p in st.directories && st.directories[p].Temporary? ==> |AliasesOf(st.aliases, p)| == 1)
      && (forall p :: p in st.directories <==> AliasesOf(st.aliases, p) != {})
      && (forall p :: p in st.directories ==> Below(AllRoots(root, ms), p))
  {
    var st, roots := Run(Initial(root), ms), AllRoots(root, ms);
    KeepRun(root, ms);
    forall p ensures p in st.directories <==> AliasesOf(st.aliases, p) != {} {
      if p in st.directories { assert Counted(st.directories[p], AliasesOf(st.aliases, p)); }
      else { NoAliases(st, roots, p); }
    }
  }

  /** A registration goes through exactly if the alias is new, the parent known, the path
      accepted and the directory not a temporary one.  Then the alias names the directory
      the path's components lead down to from the parent's; nothing else changes but the
      count of that directory. */
  lemma RegisterNames(st: State, roots: set<string>, alias: Alias, path: string, parent: Alias)
    requires Inv(st, roots)
    ensures var st' := Step(st, Register(alias, path, parent));
      if alias in st.aliases || parent !in st.aliases || !Good(Components(path)) then st' == st
      else
        var p := st.aliases[parent] + Steps(DownFrom(path, 0));
        if p in st.directories && st.directories[p].Temporary? then st' == st
        else
          && st'.aliases == st.aliases[alias := p]
          && p in st'.directories && st'.directories[p] == Shared(|AliasesOf(st.aliases, p)|)
          && st'.directories - {p} == st.directories - {p}
  {
    if alias !in st.aliases && parent in st.aliases && Good(Components(path)) {
      var dirpath := st.aliases[parent];
      BelowGrows(roots, roots, dirpath);
      ResolveLaw(dirpath, path);
      var p := Resolve(dirpath, path);
      if p in st.directories { assert Counted(st.directories[p], AliasesOf(st.aliases, p)); }
      else { NoAliases(st, roots, p); }
    }
  }

  /** A temporary directory made under a new name gets the alias as its only one. */
  lemma TemporaryNames(st: State, roots: set<string>, alias: Alias, made: string)
    requires Inv(st, roots)
    ensures var st', p := Step(st, RegisterTemporary(alias, made)), made + "/";
      if alias in st.aliases || p in st.directories then st' == st
      else
        && st'.aliases == st.aliases[alias := p] && AliasesOf(st'.aliases, p) == {alias}
        && st'.directories == st.directories[p := Temporary]
  {
    var p := made + "/";
    if alias !in st.aliases && p !in st.directories {
      NoAliases(st, roots, p);
      AliasAdded(st.aliases, alias, p, p);
    }
  }

  /** Unregistering removes the directory exactly with its last alias and touches no other. */
  lemma GoesWithLast(st: State, roots: set<string>, alias: Alias)
    requires Inv(st, roots) && alias in st.aliases
    ensures var st', p := Step(st, Unregister(alias)), st.aliases[alias];
      && alias !in st'.aliases
      && (p !in st'.directories <==> AliasesOf(st.aliases, p) == {alias})
      && (forall q :: q != p ==> (q in st'.directories <==> q in st.directories))
      && (forall q :: q != p && q in st.directories ==> st'.directories[q] == st.directories[q])
  {
    OnlyAlias(st, roots, alias);
    assert Counted(st.directories[st.aliases[alias]], AliasesOf(st.aliases, st.aliases[alias]));
  }

  lemma AddedAndRemoved<K, V>(m: map<K, V>, k: K, v: V)
    requires k !in m
    ensures m[k := v] - {k} == m
  {
  }

  lemma SetAndReset<K, V>(m: map<K, V>, k: K, v: V)
    requires k in m
    ensures m[k := v][k := m[k]] == m
  {
  }

  /** Unregistering an alias undoes its registration. */
  lemma UnregisterUndoes(st: State, roots: set<string>, m: Message)
    requires Inv(st, roots) && !m.Unregister? && Step(st, m) != st
    ensures Step(Step(st, m), Unregister(m.alias)) == st
  {
    var p := Step(st, m).aliases[m.alias];
    AddedAndRemoved(st.aliases, m.alias, p);
    if p in st.directories {
      assert Counted(st.directories[p], AliasesOf(st.aliases, p));
      SetAndReset(st.directories, p, Shared(st.directories[p].count + 1));
    } else {
      AddedAndRemoved(st.directories, p, if m.Register? then Shared(0) else Temporary);
    }
  }

  // ------------------------------------------------------------ as it is stored

  class FileSystem {
    var directories: map<string, Directory>
    var aliases: map<Alias, string>

    function Current(): (st: State)
      reads this
    {
      State(directories, aliases)
    }

    constructor (root: string)
      requires EndsInSlash(root)
      ensures Current() == Initial(root)
    {
      directories := map[root := Shared(0)];
      aliases := map[WORKING_DIRECTORY := root];
    }

    /** process_register_directory. */
    method ProcessRegister(alias: Alias, path: string, parent: Alias, ghost roots: set<string>)
      requires Inv(Current(), roots)
      modifies this
      ensures Current() == Step(old(Current()), Register(alias, path, parent)) && Inv(Current(), roots)
    {
      KeepRegister(Current(), roots, Register(alias, path, parent));
      if alias in aliases { return; }
      if parent !in aliases { return; }
      var at := CheckFilepath(path);
      if at != |path| { return; }
      var dirpath := aliases[parent];
      BelowGrows(roots, roots, dirpath);
      var filepath := dirpath + path;
      if filepath[|filepath| - 1] != '/' { filepath := filepath + "/"; }
      if filepath in directories {
        if directories[filepath].Temporary? { return; }
        directories := directories[filepath := Shared(directories[filepath].count + 1)];
      } else {
        directories := directories[filepath := Shared(0)];
      }
      aliases := aliases[alias := filepath];
    }

    /** process_register_temporary_directory; mkdtemp made the directory `made`. */
    method ProcessRegisterTemporary(alias: Alias, made: string, ghost roots: set<string>)
      requires Inv(Current(), roots)
      modifies this
      ensures Current() == Step(old(Current()), RegisterTemporary(alias, made)) && Inv(Current(), roots + {made + "/"})
    {
      KeepTemporary(Current(), roots, RegisterTemporary(alias, made));
      if alias in aliases { return; }
      var filepath := made + "/";
      if filepath in directories { return; }
      directories := directories[filepath := Temporary];
      aliases := aliases[alias := filepath];
    }

    /** process_unregister_directory. */
    method ProcessUnregister(alias: Alias, ghost roots: set<string>)
      requires Inv(Current(), roots)
      modifies this
      ensures Current() == Step(old(Current()), Unregister(alias)) && Inv(Current(), roots)
    {
      KeepUnregister(Current(), roots, Unregister(alias));
      if alias !in aliases { return; }
      var p := aliases[alias];
      var unused := true;
      var directory := directories[p];
      if directory.Shared? {
        directories := directories[p := Shared(directory.count - 1)];
        unused := directory.count - 1 < 0;
      }
      if unused { directories := directories - {p}; }
      aliases := aliases - {alias};
    }
  }
}
