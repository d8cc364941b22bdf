/** Which relative paths are accepted, and what they lead to.  A path is cut at its
    slashes; a component must not lead up or stay where it is, and only the last one
    may be empty.  What such a path leads to lies below the directory it starts from. */
module FilePaths {

  function FindSlash(path: string, i: nat): (j: nat)
    requires i <= |path|
    ensures i <= j <= |path|
    decreases |path| - i
  {
    if i == |path| || path[i] == '/' then i else FindSlash(path, i + 1)
  }

  lemma {:induction false} FindSlashLaw(path: string, i: nat)
    requires i <= |path|
    ensures var j := FindSlash(path, i); (j < |path| ==> path[j] == '/') && '/' !in path[i..j]
    decreases |path| - i
  {
    if i < |path| && path[i] != '/' {
      FindSlashLaw(path, i + 1);
      var j := FindSlash(path, i + 1);
      assert path[i..j] == [path[i]] + path[i + 1..j];
    }
  }

  /** The pieces between the slashes; a path without slashes is one piece. */
  function Components(path: string): (cs: seq<string>)
    ensures cs != []
  {
    ComponentsFrom(path, 0)
  }

  function ComponentsFrom(path: string, i: nat): (cs: seq<string>)
    requires i <= |path|
    ensures cs != []
    decreases |path| - i
  {
    var j := FindSlash(path, i);
    if j == |path| then [path[i..]] else [path[i..j]] + ComponentsFrom(path, j + 1)
  }

  /** The path with these components. */
  function Slashed(cs: seq<string>): (path: string)
    requires cs != []
  {
    if |cs| == 1 then cs[0] else cs[0] + ("/" + Slashed(cs[1..]))
  }

  /** Components are what joins to the path and holds no slash. */
  lemma {:induction false} ComponentsLaw(path: string, i: nat)
    requires i <= |path|
    ensures Slashed(ComponentsFrom(path, i)) == path[i..]
    ensures forall k :: 0 <= k < |ComponentsFrom(path, i)| ==> '/' !in ComponentsFrom(path, i)[k]
    decreases |path| - i
  {
    var j := FindSlash(path, i);
    FindSlashLaw(path, i);
    if j == |path| {
      assert path[i..j] == path[i..];
    } else {
      ComponentsLaw(path, j + 1);
      var rest := ComponentsFrom(path, j + 1);
      assert ([path[i..j]] + rest)[1..] == rest;
      assert path[i..] == path[i..j] + ("/" + path[j + 1..]);
    }
  }

  predicate Dots(c: string) {
    c == "." || c == ".."
  }

  /** No component is "." or "..", and none but the last is empty. */
  predicate Good(cs: seq<string>) {
    forall i :: 0 <= i < |cs| ==> !Dots(cs[i]) && (i < |cs| - 1 ==> cs[i] != "")
  }

  lemma GoodNext(c: string, rest: seq<string>)
    requires rest != []
    ensures Good([c] + rest) <==> !Dots(c) && c != "" && Good(rest)
  {
    var cs := [c] + rest;
    assert forall i :: 0 <= i < |rest| ==> cs[i + 1] == rest[i];
    if Good(cs) {
      forall i | 0 <= i < |rest| ensures !Dots(rest[i]) &&
        (i < |rest| - 1 ==> rest[i] != "") { assert cs[i + 1] == rest[i]; }
      assert cs[0] == c;
    }
  }

  /** One component at a time. */
  lemma GoodAt(path: string, i: nat)
    requires i <= |path|
    ensures var j := FindSlash(path, i); Good(ComponentsFrom(path, i)) <==>
      !Dots(path[i..j]) && (j < |path| ==> path[i..j] != "" && Good(ComponentsFrom(path, j + 1)))
  {
    var j := FindSlash(path, i);
    var c := path[i..j];
    if j < |path| {
      GoodNext(c, ComponentsFrom(path, j + 1));
    } else {
      var one: seq<string> := [c];
      assert path[i..] == c && one[0] == c;
    }
  }

  lemma DotsAt(path: string, begin: nat, slash: nat)
    requires begin < slash <= |path|
    ensures Dots(path[begin..slash]) <==>
      path[begin] == '.' && (begin + 1 == slash || (path[begin + 1] == '.' && begin + 2 == slash))
  {
    var c := path[begin..slash];
    assert c[0] == path[begin];
    if slash == begin + 2 { assert c[1] == path[begin + 1]; }
  }

  /** check_filepath: the end of a path that is accepted, or where its first bad
      component begins. */
  method CheckFilepath(path: string) returns (at: nat)
    ensures at <= |path|
    ensures at == |path| <==> Good(Components(path))
  {
    var begin := 0;
    while true
      invariant begin <= |path| && (Good(Components(path)) <==> Good(ComponentsFrom(path, begin)))
      decreases |path| - begin
    {
      var slash := FindSlash(path, begin);
      FindSlashLaw(path, begin);
      ghost var c := path[begin..slash];
      GoodAt(path, begin);
      if slash == begin { return slash; }
      DotsAt(path, begin, slash);
      if path[begin] == '.' {
        if begin + 1 == slash { return begin; }
        if path[begin + 1] == '.' {
          if begin + 2 == slash { return begin; }
        }
      }
      if slash == |path| { break; }
      begin := slash + 1;
    }
    at := |path|;
  }

  // ------------------------------------------------------- directories below

  predicate Plain(c: string) {
    c != "" && !Dots(c) && '/' !in c
  }

  predicate AllPlain(cs: seq<string>) {
    forall i :: 0 <= i < |cs| ==> Plain(cs[i])
  }

  /** Steps down from a directory, each ended by a slash. */
  function Steps(cs: seq<string>): (t: string) {
    if cs == [] then "" else cs[0] + ("/" + Steps(cs[1..]))
  }

  predicate EndsInSlash(t: string) {
    t != "" && t[|t| - 1] == '/'
  }

  /** The directory a path leads to: a slash is added where there is none. */
  function Resolve(dirpath: string, path: string): (t: string)
    requires EndsInSlash(dirpath)
    ensures EndsInSlash(t)
  {
    var t := dirpath + path;
    if t[|t| - 1] != '/' then t + "/" else t
  }

  /** The components a path goes down, without the empty one behind a final slash. */
  function DownFrom(path: string, i: nat): (cs: seq<string>)
    requires i <= |path|
    decreases |path| - i
  {
    var j := FindSlash(path, i);
    if j < |path| then [path[i..j]] + DownFrom(path, j + 1)
    else if i == |path| then [] else [path[i..]]
  }

  function Ending(path: string, i: nat): (t: string)
    requires i <= |path|
  {
    if i == |path| || path[|path| - 1] == '/' then "" else "/"
  }

  lemma StepDown(c: string, rest: seq<string>)
    requires Plain(c) && AllPlain(rest)
    ensures AllPlain([c] + rest) && Steps([c] + rest) == c + ("/" + Steps(rest))
  {
    assert ([c] + rest)[1..] == rest;
  }

  lemma {:induction false} DownLaw(path: string, i: nat)
    requires i <= |path| && Good(ComponentsFrom(path, i))
    ensures AllPlain(DownFrom(path, i)) && path[i..] + Ending(path, i) == Steps(DownFrom(path, i))
    decreases |path| - i
  {
    var j := FindSlash(path, i);
    GoodAt(path, i);
    if j < |path| {
      FindSlashLaw(path, i);
      DownLaw(path, j + 1);
      StepDown(path[i..j], DownFrom(path, j + 1));
      EndingNext(path, i, j);
    } else if i < |path| {
      LastDown(path, i);
    }
  }

  lemma LastDown(path: string, i: nat)
    requires i < |path| && FindSlash(path, i) == |path| && !Dots(path[i..|path|])
    ensures AllPlain([path[i..]]) && path[i..] + Ending(path, i) == Steps([path[i..]])
  {
    FindSlashLaw(path, i);
    assert path[i..|path|] == path[i..];
    var c := path[i..];
    assert c[|c| - 1] == path[|path| - 1];
    var one: seq<string> := [c];
    assert one[1..] == [] && "/" + "" == "/";
  }

  lemma EndingNext(path: string, i: nat, j: nat)
    requires i <= j < |path| && path[j] == '/'
    ensures Ending(path, i) == Ending(path, j + 1)
    ensures path[i..] + Ending(path, i) == path[i..j] + ("/" + (path[j + 1..] + Ending(path, j + 1)))
  {
    assert path[i..] == path[i..j] + ("/" + path[j + 1..]);
  }

  /** An accepted path leads to a directory below, by plain steps only. */
  lemma ResolveLaw(dirpath: string, path: string)
    requires EndsInSlash(dirpath) && Good(Components(path))
    ensures AllPlain(DownFrom(path, 0)) && Resolve(dirpath, path) == dirpath + Steps(DownFrom(path, 0))
  {
    DownLaw(path, 0);
    assert path[0..] == path;
    assert (dirpath + path) + Ending(path, 0) == dirpath + (path + Ending(path, 0));
    if path != "" { assert (dirpath + path)[|dirpath + path| - 1] == path[|path| - 1]; }
    else { assert dirpath + path == dirpath; }
  }

  lemma {:induction false} StepsJoin(a: seq<string>, b: seq<string>)
    ensures Steps(a + b) == Steps(a) + Steps(b)
  {
    if a == [] {
      assert a + b == b && "" + Steps(b) == Steps(b);
    } else {
      StepsJoin(a[1..], b);
      assert (a + b)[1..] == a[1..] + b;
      assert a[0] + ("/" + (Steps(a[1..]) + Steps(b))) == (a[0] + ("/" + Steps(a[1..]))) + Steps(b);
    }
  }
}
