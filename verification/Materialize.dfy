/** Writing a model's layers out of the store into a directory: all of them,
    each in a file of its own holding the recorded bytes, or nothing. */
module Materialize {
  import opened Wrappers
  import opened Primitives
  import opened Text

  type Path = seq<string>

  datatype Node = Dir | File(id: nat, bytes: Bytes) | Other

  /** What is under the output directory, by resolved name; [] is itself. */
  type Tree = map<Path, Node>

  datatype Layer = Layer(name: string, weight: bool, raw: bool, digest: Bytes, size: nat)

  datatype Fault =
    | Unnamed | NotRaw | Escapes | IOError | NotInStore | NotRegular | TwoLayersOneFile
    | WrongLength | WrongDigest | NothingToWrite

  // ----- names

  function CleanParts(parts: seq<string>, stack: Path): Option<Path> {
    if parts == [] then Some(stack)
    else if parts[0] == "" || parts[0] == "." then CleanParts(parts[1..], stack)
    else if parts[0] == ".." then
      if stack == [] then None else CleanParts(parts[1..], stack[..|stack| - 1])
    else CleanParts(parts[1..], stack + [parts[0]])
  }

  /** `filepath.Clean`, and None for a name that is absolute or climbs out. */
  function Clean(name: string): Option<Path> {
    if name != "" && name[0] == '/' then None else CleanParts(Split(name, '/'), [])
  }

  ghost predicate Inside(p: Path) {
    forall k :: 0 <= k < |p| ==> p[k] != "" && p[k] != "." && p[k] != ".." && '/' !in p[k]
  }

  lemma {:induction false} CleanPartsInside(parts: seq<string>, stack: Path)
    requires Inside(stack) && forall k :: 0 <= k < |parts| ==> '/' !in parts[k]
    ensures CleanParts(parts, stack).Some? ==> Inside(CleanParts(parts, stack).value)
    decreases |parts|
  {
    if parts != [] {
      if parts[0] == "" || parts[0] == "." {
        CleanPartsInside(parts[1..], stack);
      } else if parts[0] == ".." {
        if stack != [] {
          CleanPartsInside(parts[1..], stack[..|stack| - 1]);
        }
      } else {
        CleanPartsInside(parts[1..], stack + [parts[0]]);
      }
    }
  }

  /** A name that is accepted stays beneath the directory. */
  lemma CleanStaysInside(name: string)
    requires Clean(name).Some?
    ensures Inside(Clean(name).value)
  {
    SplitFree(name, '/');
    CleanPartsInside(Split(name, '/'), []);
  }

  ghost predicate PlainPart(x: string) {
    x != "" && x != "." && x != ".."
  }

  /** A name's components say where it leads: an absolute name nowhere. */
  lemma CleanReads(parts: seq<string>)
    requires parts != [] && forall k :: 0 <= k < |parts| ==> '/' !in parts[k]
    ensures var name := Join(parts, '/');
            Clean(name) == if name != "" && name[0] == '/' then None else CleanParts(parts, [])
  {
    JoinSplit(parts, '/');
  }

  /** Plain components lead where they say. */
  lemma {:induction false} PlainLeads(parts: seq<string>, stack: Path)
    requires forall k :: 0 <= k < |parts| ==> PlainPart(parts[k])
    ensures CleanParts(parts, stack) == Some(stack + parts)
    decreases |parts|
  {
    if parts != [] {
      PlainLeads(parts[1..], stack + [parts[0]]);
      assert stack + [parts[0]] + parts[1..] == stack + parts;
    } else {
      assert stack + parts == stack;
    }
  }

  /** An empty component or a dot leads nowhere else, a name and the way back
      cancel, and a way up from the top climbs out. With `PlainLeads` this decides
      where any components lead. */
  lemma {:induction false} DotsCancel(a: seq<string>, x: string, b: seq<string>, stack: Path)
    ensures x == "" || x == "." ==> CleanParts(a + [x] + b, stack) == CleanParts(a + b, stack)
    ensures PlainPart(x) ==> CleanParts(a + [x, ".."] + b, stack) == CleanParts(a + b, stack)
    ensures CleanParts([".."] + b, []) == None
    decreases |a|
  {
    if a == [] {
      assert ([x] + b)[1..] == b && [] + [x] + b == [x] + b && [] + b == b;
      var back := [".."] + b;
      assert [] + [x, ".."] + b == [x] + back && ([x] + back)[1..] == back && back[1..] == b;
      assert (stack + [x])[..|stack + [x]| - 1] == stack;
    } else {
      var rest := a[1..];
      assert (a + [x] + b)[1..] == rest + [x] + b && (a + b)[1..] == rest + b;
      assert (a + [x, ".."] + b)[1..] == rest + [x, ".."] + b;
      DotsCancel(rest, x, b, stack);
      DotsCancel(rest, x, b, stack + [a[0]]);
      if stack != [] {
        DotsCancel(rest, x, b, stack[..|stack| - 1]);
      }
    }
  }

  /** The file a path names, on a filesystem that folds names by `fold`. */
  function Key(fold: string -> string, p: Path): Path {
    seq(|p|, k requires 0 <= k < |p| => fold(p[k]))
  }

  // ----- trees

  predicate Under(a: Path, b: Path) {
    |b| < |a| && a[..|b|] == b
  }

  ghost predicate Rooted(t: Tree) {
    && [] in t && t[[]] == Dir
    && forall k :: k in t && k != [] ==> k[..|k| - 1] in t && t[k[..|k| - 1]] == Dir
  }

  lemma RootedWith(t: Tree, k: Path, n: Node)
    requires Rooted(t) && k !in t && k != [] && k[..|k| - 1] in t && t[k[..|k| - 1]] == Dir
    ensures Rooted(t[k := n])
  {
  }

  /** Everything above a name that is there, is there and a directory. */
  lemma {:induction false} RootedAbove(t: Tree, k: Path, n: nat)
    requires Rooted(t) && k in t && n < |k|
    ensures k[..n] in t && t[k[..n]] == Dir
    decreases |k|
  {
    var up := k[..|k| - 1];
    if n < |up| {
      RootedAbove(t, up, n);
      assert up[..n] == k[..n];
    } else {
      assert up == k[..n];
    }
  }

  /** How the tree now stands to the tree the run found. `files` and `dirs`
      are what the run made, in order; `gone` are names it took from regular
      files and then failed to fill. */
  ghost predicate Standing(t0: Tree, t: Tree, files: seq<Path>, dirs: seq<Path>, gone: set<Path>) {
    && (forall k :: k in t ==> k in files || k in dirs || (k in t0 && t[k] == t0[k]))
    && (forall k :: k in t0 && k !in files && k !in gone ==> k in t && t[k] == t0[k])
    && (forall k :: k in gone ==> k in t0 && t0[k].File? && k !in t)
    && (forall f :: f in files ==> f in t && t[f].File? && (f in t0 ==> t0[f].File?))
    && (forall d :: d in dirs ==> d !in t0 && (d in t ==> t[d] == Dir) && d !in files)
  }

  /** A directory is made after the ones above it. */
  ghost predicate OutermostFirst(dirs: seq<Path>) {
    forall i, j :: 0 <= i < j < |dirs| ==> !Under(dirs[i], dirs[j]) && dirs[i] != dirs[j]
  }

  /** The files made are distinct files, none of them one that was there, and
      the run knows exactly them. */
  ghost predicate OwnFiles(t0: Tree, t: Tree, files: seq<Path>, mine: set<nat>) {
    && (forall f :: f in files ==> f in t && t[f].File? && t[f].id in mine)
    && (forall k :: k in t && t[k].File? && t[k].id in mine ==> k in files)
    && (forall k :: k in t0 && t0[k].File? ==> t0[k].id !in mine)
    && (forall i, j :: 0 <= i < j < |files| ==> files[i] != files[j] && DifferentFiles(t, files[i], files[j]))
  }

  ghost predicate DifferentFiles(t: Tree, a: Path, b: Path) {
    a in t && b in t && t[a].File? && t[b].File? && t[a].id != t[b].id
  }

  /** Each file holds its layer's bytes, at the name the layer gives it. */
  ghost predicate Holds(sha: Hasher, fold: string -> string, t: Tree, files: seq<Path>, done: seq<Layer>) {
    && |done| == |files|
    && forall i :: 0 <= i < |files| ==>
         && Clean(done[i].name).Some? && files[i] == Key(fold, Clean(done[i].name).value)
         && files[i] in t && t[files[i]].File?
         && |t[files[i]].bytes| == done[i].size && sha(t[files[i]].bytes) == done[i].digest
  }

  /** What a run leaves when it fails: the tree it found, less any regular
      file it had taken the name of. */
  ghost predicate TakenBack(t0: Tree, t: Tree, named: set<Path>) {
    && (forall k :: k in t ==> k in t0 && t[k] == t0[k])
    && (forall k :: k in t0 && k !in t ==> t0[k].File? && k in named)
  }

  ghost function NamedBy(fold: string -> string, layers: seq<Layer>): set<Path> {
    set l | l in layers && Clean(l.name).Some? :: Key(fold, Clean(l.name).value)
  }

  /** The layers that name a file, in order. */
  function Naming(layers: seq<Layer>): seq<Layer> {
    if layers == [] then []
    else Naming(layers[..|layers| - 1]) + if layers[|layers| - 1].name == "" then [] else [layers[|layers| - 1]]
  }

  class Output {
    const fold: string -> string
    const sha: Hasher
    /** Whether anything on this filesystem can fail at all. */
    const mayFail: bool
    /** Whether the directory is there, and what is under it. */
    var present: bool
    var tree: Tree
    var next: nat

    ghost predicate Valid()
      reads this
    {
      && Rooted(tree)
      && (!present ==> tree == map[[] := Dir])
      && (forall k :: k in tree && tree[k].File? ==> tree[k].id < next)
    }

    /** Any operation may fail, on a filesystem where one can. */
    method Fails() returns (b: bool)
      ensures b ==> mayFail
    {
      b := false;
      if mayFail {
        b := *;
      }
    }

    /** The components of a path that are not there, outermost first. */
    method MissingDirs(p: Path) returns (missing: seq<Path>)
      ensures SetOf(missing) == Prefixes(fold, p, |p|) - tree.Keys
      ensures OutermostFirst(missing)
    {
      missing := [];
      for n := 0 to |p|
        invariant SetOf(missing) == Prefixes(fold, p, n) - tree.Keys
        invariant forall i :: 0 <= i < |missing| ==> |missing[i]| <= n
        invariant OutermostFirst(missing)
      {
        var k := Key(fold, p[..n + 1]);
        PrefixesMore(fold, p, n);
        if k !in tree {
          assert SetOf(missing + [k]) == SetOf(missing) + {k};
          missing := missing + [k];
        }
      }
    }

    method AddDir(k: Path)
      requires Valid() && present && k !in tree && k != [] && k[..|k| - 1] in tree && tree[k[..|k| - 1]] == Dir
      modifies this`tree
      ensures Valid() && tree == old(tree)[k := Dir]
    {
      RootedWith(tree, k, Dir);
      tree := tree[k := Dir];
    }

    /** Makes a directory and what is above it, as far as it gets. */
    method MkdirAll(p: Path) returns (ok: bool)
      requires Valid() && present
      modifies this`tree
      ensures Valid() && OnlyDirs(old(tree), tree, Prefixes(fold, p, |p|))
      ensures ok ==> Key(fold, p) in tree && tree[Key(fold, p)] == Dir
      ensures !ok ==> mayFail || Blocked(fold, old(tree), p)
    {
      var above := Key(fold, p[..0]);
      assert above == [];
      for n := 0 to |p|
        invariant Valid() && OnlyDirs(old(tree), tree, Prefixes(fold, p, n))
        invariant above == Key(fold, p[..n]) && above in tree && tree[above] == Dir
      {
        var k := Key(fold, p[..n + 1]);
        KeyAbove(fold, p, n);
        var failed := Fails();
        if failed || (k in tree && tree[k] != Dir) {
          assert k in tree && tree[k] != Dir ==> BlockedAt(fold, old(tree), p, n + 1);
          PrefixesWithin(fold, p, n);
          return false;
        }
        PrefixesMore(fold, p, n);
        OneDirMore(old(tree), tree, Prefixes(fold, p, n), k);
        if k !in tree {
          AddDir(k);
        }
        above := k;
      }
      assert p[..|p|] == p;
      ok := true;
    }

    /** Frees a name: one taken by a regular file of an earlier run is removed,
        one taken by this run or by anything else is refused. */
    method FreeName(k: Path, mine: set<nat>) returns (e: Option<Fault>, ghost took: bool)
      requires Valid() && present
      modifies this`tree
      ensures Valid() && tree == if took then old(tree) - {k} else old(tree)
      ensures took ==> k in old(tree) && old(tree)[k].File? && old(tree)[k].id !in mine
      ensures e.None? ==> k !in tree && (took <==> k in old(tree))
      ensures e.Some? ==> NameTaken(old(tree), mine, k, e.value) || (mayFail && e.value == IOError)
    {
      took := false;
      var failed := Fails();
      if k !in tree {
        return if failed then Some(IOError) else None, took;
      }
      if !tree[k].File? {
        return Some(NotRegular), took;
      }
      if tree[k].id in mine {
        return Some(TwoLayersOneFile), took;
      }
      if failed {
        return Some(IOError), took;
      }
      RemoveFile(k);
      return None, true;
    }

    method MakeFile(k: Path) returns (id: nat)
      requires Valid() && present && k !in tree
      requires k != [] && k[..|k| - 1] in tree && tree[k[..|k| - 1]] == Dir
      modifies this`tree, this`next
      ensures Valid() && id == old(next) && next == id + 1 && tree == old(tree)[k := File(id, [])]
    {
      id := next;
      RootedWith(tree, k, File(id, []));
      tree := tree[k := File(id, [])];
      next := next + 1;
    }

    /** Makes a name outright, taking it from a regular file of an earlier run
        but never from one of this run's. */
    method CreateOutputFile(p: Path, mine: set<nat>) returns (r: Result<nat, Fault>, ghost took: bool)
      requires Valid() && present
      requires p != [] ==> Key(fold, p[..|p| - 1]) in tree && tree[Key(fold, p[..|p| - 1])] == Dir
      modifies this`tree, this`next
      ensures Valid() && next >= old(next)
      ensures took ==> Key(fold, p) in old(tree) && old(tree)[Key(fold, p)].File?
                       && old(tree)[Key(fold, p)].id !in mine
      ensures r.Ok? ==> old(next) == r.value < next && (took <==> Key(fold, p) in old(tree))
                        && tree == old(tree)[Key(fold, p) := File(r.value, [])]
      ensures r.Err? ==> tree == (if took then old(tree) - {Key(fold, p)} else old(tree))
      ensures r.Err? ==> NameTaken(old(tree), mine, Key(fold, p), r.error) || (mayFail && r.error == IOError)
    {
      var k := Key(fold, p);
      var e;
      e, took := FreeName(k, mine);
      if e.Some? {
        return Err(e.value), took;
      }
      // the exclusive open may fail, and so may reading what it made, which
      // is then removed again
      var failed := Fails();
      if failed {
        return Err(IOError), took;
      }
      assert p != [] ==> k[..|k| - 1] == Key(fold, p[..|p| - 1]);
      var id := MakeFile(k);
      r := Ok(id);
      Overwritten(old(tree), k, Dir, File(id, []));
    }

    method RemoveFile(k: Path)
      requires Valid() && k in tree && tree[k].File? && present
      modifies this`tree
      ensures Valid() && tree == old(tree) - {k}
    {
      tree := tree - {k};
    }

    /** Writes one blob to a name, holding the bytes to the size and digest
        recorded. A file that was made is returned even when it is not right. */
    method CopyFile(blob: Bytes, p: Path, l: Layer, mine: set<nat>)
      returns (made: Option<nat>, e: Option<Fault>, ghost took: bool, ghost wrote: Bytes)
      requires Valid() && present
      requires p != [] ==> Key(fold, p[..|p| - 1]) in tree && tree[Key(fold, p[..|p| - 1])] == Dir
      modifies this`tree, this`next
      ensures Valid() && next >= old(next)
      ensures took ==> Key(fold, p) in old(tree) && old(tree)[Key(fold, p)].File?
                       && old(tree)[Key(fold, p)].id !in mine
      ensures made.None? ==> e.Some? && tree == if took then old(tree) - {Key(fold, p)} else old(tree)
      ensures made.Some? ==> made.value >= old(next) && made.value < next
                             && (took <==> Key(fold, p) in old(tree))
                             && tree == old(tree)[Key(fold, p) := File(made.value, wrote)]
      ensures e.None? ==> made.Some? && wrote == blob && |wrote| == l.size && sha(wrote) == l.digest
      ensures e.Some? ==> CopyFault(sha, mayFail, old(tree), mine, Key(fold, p), blob, l, e.value)
    {
      wrote := [];
      var failed := Fails();
      if failed {
        return None, Some(IOError), false, wrote;
      }
      var r;
      r, took := CreateOutputFile(p, mine);
      if r.Err? {
        return None, Some(r.error), took, wrote;
      }
      made := Some(r.value);
      var k := Key(fold, p);
      var data := if |blob| <= l.size then blob else blob[..l.size + 1];
      failed := Fails();
      if failed {
        var n :| 0 <= n <= |data|;
        data := data[..n];
      }
      WriteFile(k, r.value, data);
      wrote := data;
      Overwritten(old(tree), k, File(r.value, []), File(r.value, data));
      if failed {
        return made, Some(IOError), took, wrote;
      }
      if |data| != l.size {
        return made, Some(WrongLength), took, wrote;
      }
      if sha(data) != l.digest {
        return made, Some(WrongDigest), took, wrote;
      }
      return made, None, took, wrote;
    }

    method WriteFile(k: Path, id: nat, data: Bytes)
      requires Valid() && present && k in tree && tree[k] == File(id, [])
      modifies this`tree
      ensures Valid() && tree == old(tree)[k := File(id, data)]
    {
      tree := tree[k := File(id, data)];
    }

    // ----- one layer

    /** Writes one layer: nothing for one that names no file. */
    method WriteLayer(l: Layer, store: map<Bytes, Bytes>, files: seq<Path>, dirs: seq<Path>, mine: set<nat>, ghost t0: Tree)
      returns (files': seq<Path>, dirs': seq<Path>, mine': set<nat>, e: Option<Fault>, ghost gone: set<Path>)
      requires Valid() && present && Rooted(t0) && Running(t0, tree, files, dirs, mine) && IdsBelow(t0, mine, next)
      modifies this`tree, this`next
      ensures Valid() && Stopped(t0, tree, files', dirs', gone)
      ensures SetOf(files') + gone <= SetOf(files) + NamedBy(fold, [l])
      ensures e.None? ==> Running(t0, tree, files', dirs', mine') && IdsBelow(t0, mine', next)
      ensures e.None? ==> if l.name == "" then files' == files && !l.weight
                          else l.raw && Added(sha, fold, tree, files, files', l)
      ensures e.None? ==> (l.name != "" ==> InStore(sha, store, l)) && (Leading(dirs, files) ==> Leading(dirs', files'))
      ensures e.Some? ==> FaultOf(fold, sha, mayFail, old(tree), mine, store, l, e.value)
      ensures SameAt(old(tree), tree, files)
    {
      files', dirs', mine', gone := files, dirs, mine, {};
      if l.name == "" {
        return files', dirs', mine', if l.weight then Some(Unnamed) else None, gone;
      }
      if !l.raw {
        return files', dirs', mine', Some(NotRaw), gone;
      }
      var clean := Clean(l.name);
      if clean.None? {
        return files', dirs', mine', Some(Escapes), gone;
      }
      assert l in [l] && Key(fold, clean.value) in NamedBy(fold, [l]);
      files', dirs', mine', e, gone := WriteNamed(clean.value, l, store, files, dirs, mine, t0);
    }

    method WriteNamed(p: Path, l: Layer, store: map<Bytes, Bytes>, files: seq<Path>, dirs: seq<Path>,
                      mine: set<nat>, ghost t0: Tree)
      returns (files': seq<Path>, dirs': seq<Path>, mine': set<nat>, e: Option<Fault>, ghost gone: set<Path>)
      requires Valid() && present && Rooted(t0) && Running(t0, tree, files, dirs, mine) && IdsBelow(t0, mine, next)
      requires Clean(l.name) == Some(p)
      modifies this`tree, this`next
      ensures Valid() && Stopped(t0, tree, files', dirs', gone)
      ensures SetOf(files') + gone <= SetOf(files) + {Key(fold, p)}
      ensures e.None? ==> Running(t0, tree, files', dirs', mine') && IdsBelow(t0, mine', next)
      ensures e.None? ==> Added(sha, fold, tree, files, files', l) && InStore(sha, store, l)
      ensures e.None? && Leading(dirs, files) ==> Leading(dirs', files')
      ensures e.Some? ==> NamedFault(fold, sha, mayFail, old(tree), mine, store, p, l, e.value)
      ensures SameAt(old(tree), tree, files)
    {
      files', mine', gone := files, mine, {};
      var ok;
      dirs', ok := EnterParents(p, files, dirs, mine, t0);
      if !ok {
        return files', dirs', mine', Some(IOError), gone;
      }
      if l.digest !in store {
        return files', dirs', mine', Some(NotInStore), gone;
      }
      ghost var was := tree;
      files', mine', e, gone := PlaceFile(p, l, store[l.digest], files, dirs', mine, t0);
      assert SameAt(old(tree), was, files) && SameAt(was, tree, files);
      if e.None? {
        LeadsToNew(fold, p, dirs, dirs', files, files');
      }
    }

    /** The directories above a name, if it has any. */
    method EnterParents(p: Path, files: seq<Path>, dirs: seq<Path>, mine: set<nat>, ghost t0: Tree)
      returns (dirs': seq<Path>, ok: bool)
      requires Valid() && present && Rooted(t0) && Running(t0, tree, files, dirs, mine)
      modifies this`tree
      ensures Valid() && Standing(t0, tree, files, dirs', {}) && OutermostFirst(dirs')
      ensures ok ==> Running(t0, tree, files, dirs', mine)
      ensures ok && p != [] ==> Key(fold, p[..|p| - 1]) in tree && tree[Key(fold, p[..|p| - 1])] == Dir
      ensures !ok ==> mayFail || (p != [] && Blocked(fold, old(tree), p[..|p| - 1]))
      ensures dirs' == dirs || (|p| > 1 && forall d :: d in dirs' ==> d in dirs || d in Prefixes(fold, p[..|p| - 1], |p| - 1))
      ensures var k := Key(fold, p);
              (k in tree <==> k in old(tree)) && (k in old(tree) ==> tree[k] == old(tree)[k])
      ensures SameAt(old(tree), tree, files)
    {
      if |p| <= 1 {
        assert |p| == 1 ==> Key(fold, p[..0]) == [];
        return dirs, true;
      }
      dirs', ok := MakeParents(p[..|p| - 1], files, dirs, mine, t0);
      SameName(fold, old(tree), tree, p);
    }

    /** Copies a layer's blob to its name, and records the file if one was
        made, right or not. */
    method PlaceFile(p: Path, l: Layer, blob: Bytes, files: seq<Path>, ghost dirs: seq<Path>, mine: set<nat>, ghost t0: Tree)
      returns (files': seq<Path>, mine': set<nat>, e: Option<Fault>, ghost gone: set<Path>)
      requires Valid() && present && Running(t0, tree, files, dirs, mine) && IdsBelow(t0, mine, next)
      requires Clean(l.name) == Some(p)
      requires p != [] ==> Key(fold, p[..|p| - 1]) in tree && tree[Key(fold, p[..|p| - 1])] == Dir
      modifies this`tree, this`next
      ensures Valid() && IdsBelow(t0, mine', next)
      ensures Standing(t0, tree, files', dirs, gone)
      ensures SetOf(files') + gone <= SetOf(files) + {Key(fold, p)}
      ensures e.None? ==> Running(t0, tree, files', dirs, mine') && Added(sha, fold, tree, files, files', l)
      ensures e.None? ==> files' == files + [Key(fold, p)] && |blob| == l.size && sha(blob) == l.digest
      ensures e.Some? ==> CopyFault(sha, mayFail, old(tree), mine, Key(fold, p), blob, l, e.value)
      ensures SameAt(old(tree), tree, files)
    {
      files', mine', gone := files, mine, {};
      ghost var t1, n := tree, next;
      var made;
      ghost var took, wrote;
      made, e, took, wrote := CopyFile(blob, p, l, mine);
      var k := Key(fold, p);
      if made.None? {
        if took {
          TookStands(t0, t1, tree, files, dirs, mine, k);
          gone := {k};
        }
        return;
      }
      FreshStands(t0, t1, tree, files, dirs, mine, k, made.value, wrote, n);
      AddedAt(sha, fold, tree, files, k, made.value, wrote, l, e.None?);
      files', mine' := files + [k], mine + {made.value};
    }

    /** Makes the directories a layer's name lies in, recording the missing
        ones before the attempt. */
    method MakeParents(p: Path, files: seq<Path>, dirs: seq<Path>, mine: set<nat>, ghost t0: Tree)
      returns (dirs': seq<Path>, ok: bool)
      requires Valid() && present && Rooted(t0) && Running(t0, tree, files, dirs, mine)
      modifies this`tree
      ensures Valid()
      ensures Standing(t0, tree, files, dirs', {}) && OutermostFirst(dirs')
      ensures ok ==> Running(t0, tree, files, dirs', mine) && Key(fold, p) in tree && tree[Key(fold, p)] == Dir
      ensures !ok ==> mayFail || Blocked(fold, old(tree), p)
      ensures OnlyDirs(old(tree), tree, Prefixes(fold, p, |p|))
      ensures forall d :: d in dirs' ==> d in dirs || d in Prefixes(fold, p, |p|)
      ensures SameAt(old(tree), tree, files)
    {
      var missing := MissingDirs(p);
      ghost var t := tree;
      dirs' := dirs + missing;
      assert forall d :: d in missing ==> d in SetOf(missing);
      ok := MkdirAll(p);
      DirsNew(t0, t, files, dirs, missing);
      DirsOrder(t, dirs, missing);
      DirsStand(t0, t, tree, files, dirs, mine, missing);
      if ok {
        PrefixesThere(fold, tree, p);
        AllDirsThere(t, tree, dirs, missing);
      }
    }

    // ----- taking it back

    /** Takes back all a run made: its files, then its directories from the
        deepest, then the output directory if it made that too. */
    method TakeBack(files: seq<Path>, dirs: seq<Path>, madeDir: bool, ghost t0: Tree, ghost gone: set<Path>)
      requires Valid() && present && Rooted(t0) && Stopped(t0, tree, files, dirs, gone)
      requires madeDir ==> t0 == map[[] := Dir]
      modifies this`tree, this`present
      ensures Valid() && present == !madeDir
      ensures TakenBack(t0, tree, SetOf(files) + gone)
    {
      ghost var t := tree;
      RemoveFiles(files);
      RemoveDirs(files, dirs, t0, t, gone);
      BackToStart(t0, t, files, dirs, gone);
      if madeDir {
        assert tree == map[[] := Dir];
        present := false;
      }
    }

    method RemoveFiles(files: seq<Path>)
      requires Valid() && present && forall f :: f in files ==> f in tree && tree[f].File?
      modifies this`tree
      ensures Valid() && tree == old(tree) - SetOf(files)
    {
      ghost var t := tree;
      assert t - SetOf([]) == t;
      for i := 0 to |files|
        invariant Valid() && tree == t - SetOf(files[..i])
      {
        assert files[i] in files;
        assert SetOf(files[..i + 1]) == SetOf(files[..i]) + {files[i]};
        assert t - SetOf(files[..i]) - {files[i]} == t - SetOf(files[..i + 1]);
        if files[i] in tree {
          RemoveFile(files[i]);
        }
      }
      assert files[..|files|] == files;
    }

    method RemoveDirs(ghost files: seq<Path>, dirs: seq<Path>, ghost t0: Tree, ghost t: Tree, ghost gone: set<Path>)
      requires Valid() && present && tree == t - SetOf(files)
      requires Rooted(t0) && Standing(t0, t, files, dirs, gone) && OutermostFirst(dirs)
      modifies this`tree
      ensures Valid() && tree == t - SetOf(files) - SetOf(dirs)
    {
      ghost var t1 := tree;
      assert t1 - SetOf(dirs[|dirs|..]) == t1;
      var i := |dirs|;
      while i > 0
        invariant 0 <= i <= |dirs| && Valid()
        invariant tree == t1 - SetOf(dirs[i..])
      {
        i := i - 1;
        OneMoreGone(t1, dirs, i);
        NothingUnder(t0, t, files, dirs, gone, i);
        if dirs[i] in tree {
          DirLeft(t0, t, files, dirs, gone, i);
          RemoveEmptyDir(dirs[i]);
        }
      }
      assert dirs[0..] == dirs;
    }

    /** Removing a directory works only when nothing is under it. */
    method RemoveEmptyDir(d: Path)
      requires Valid() && present && d in tree && d != [] && tree[d] == Dir
      requires forall k :: k in tree ==> !Under(k, d)
      modifies this`tree
      ensures Valid() && tree == old(tree) - {d}
    {
      assert forall k :: k in tree && k != [] && k[..|k| - 1] == d ==> Under(k, d);
      tree := tree - {d};
    }

    // ----- the whole run

    /** How a run stands after i layers. */
    ghost predicate Written(t0: Tree, layers: seq<Layer>, i: nat, store: map<Bytes, Bytes>,
                            files: seq<Path>, dirs: seq<Path>, mine: set<nat>)
      requires i <= |layers|
      reads this
    {
      && Rooted(t0) && Running(t0, tree, files, dirs, mine) && IdsBelow(t0, mine, next)
      && Holds(sha, fold, tree, files, Naming(layers[..i])) && SetOf(files) <= NamedBy(fold, layers)
      && (forall j :: 0 <= j < i ==> Placed(layers[j]) && Writable(sha, store, layers[j]))
      && Leading(dirs, files)
    }

    method WriteNext(layers: seq<Layer>, i: nat, store: map<Bytes, Bytes>, files: seq<Path>, dirs: seq<Path>,
                     mine: set<nat>, ghost t0: Tree)
      returns (files': seq<Path>, dirs': seq<Path>, mine': set<nat>, e: Option<Fault>, ghost gone: set<Path>)
      requires Valid() && present && i < |layers| && Written(t0, layers, i, store, files, dirs, mine)
      modifies this`tree, this`next
      ensures Valid() && Stopped(t0, tree, files', dirs', gone)
      ensures SetOf(files') + gone <= NamedBy(fold, layers)
      ensures e.None? ==> Written(t0, layers, i + 1, store, files', dirs', mine')
      ensures e.Some? ==> FaultOf(fold, sha, mayFail, old(tree), mine, store, layers[i], e.value)
    {
      ghost var was := tree;
      files', dirs', mine', e, gone := WriteLayer(layers[i], store, files, dirs, mine, t0);
      NamedByOne(fold, layers, i);
      if e.None? {
        NamingMore(layers, i);
        HoldsMore(sha, fold, was, tree, files, files', Naming(layers[..i]), layers[i]);
      }
    }

    /** Makes the output directory and opens it. Nothing is taken back yet if
        this fails. */
    method Enter(mkdirFails: bool, openFails: bool) returns (ok: bool)
      requires Valid()
      modifies this`present
      ensures Valid() && (ok <==> !mkdirFails && !openFails)
      ensures present == (old(present) || !mkdirFails)
    {
      if mkdirFails {
        return false;
      }
      present := true;
      ok := !openFails;
    }

    /** What a run that wrote everything leaves. */
    ghost predicate Complete(t0: Tree, layers: seq<Layer>, files: seq<Path>)
      reads this
    {
      && present && files != [] && Holds(sha, fold, tree, files, Naming(layers))
      && (forall i, j :: 0 <= i < j < |files| ==> DifferentFiles(tree, files[i], files[j]))
      && OnlyAdded(t0, tree, files)
      && forall l :: l in layers ==> Placed(l)
    }

    method TakeAllBack(ghost layers: seq<Layer>, files: seq<Path>, dirs: seq<Path>, madeDir: bool,
                       ghost t0: Tree, ghost gone: set<Path>)
      requires Valid() && present && Rooted(t0) && Stopped(t0, tree, files, dirs, gone)
      requires SetOf(files) + gone <= NamedBy(fold, layers) && (madeDir ==> t0 == map[[] := Dir])
      modifies this`tree, this`present
      ensures Valid() && present == !madeDir && TakenBack(t0, tree, NamedBy(fold, layers))
    {
      TakeBack(files, dirs, madeDir, t0, gone);
      MoreNamed(t0, tree, SetOf(files) + gone, NamedBy(fold, layers));
    }

    lemma NothingYet(layers: seq<Layer>, store: map<Bytes, Bytes>)
      requires Valid()
      ensures Written(tree, layers, 0, store, [], [], {})
    {
      assert Naming(layers[..0]) == [] && SetOf([]) == {};
      assert OwnFiles(tree, tree, [], {}) && Standing(tree, tree, [], [], {});
    }

    lemma NoneWritten(t0: Tree, layers: seq<Layer>, store: map<Bytes, Bytes>, files: seq<Path>, dirs: seq<Path>, mine: set<nat>)
      requires present && Written(t0, layers, |layers|, store, files, dirs, mine) && files == []
      ensures Rooted(t0) && Stopped(t0, tree, files, dirs, {}) && SetOf(files) + {} <= NamedBy(fold, layers)
    {
    }

    /** With nothing written no layer names a file. */
    lemma AllNamed(layers: seq<Layer>, files: seq<Path>)
      requires Holds(sha, fold, tree, files, Naming(layers[..|layers|]))
      ensures files == [] ==> forall l :: l in layers ==> l.name == ""
    {
      assert layers[..|layers|] == layers;
      forall l | l in layers {
        NamingIs(layers, l);
      }
    }

    lemma AllWritten(t0: Tree, layers: seq<Layer>, store: map<Bytes, Bytes>, files: seq<Path>, dirs: seq<Path>, mine: set<nat>)
      requires present && Rooted(tree) && Written(t0, layers, |layers|, store, files, dirs, mine) && files != []
      ensures Complete(t0, layers, files) && Fits(fold, sha, store, t0, layers)
    {
      assert layers[..|layers|] == layers;
      WrittenFits(fold, sha, store, t0, tree, layers, files, dirs, mine);
    }

    /** Writes every layer into the open directory, or takes all of it back,
        the directory too if the run made it. */
    method WriteAll(layers: seq<Layer>, store: map<Bytes, Bytes>, madeDir: bool)
      returns (e: Option<Fault>, files: seq<Path>)
      requires Valid() && present && (madeDir ==> tree == map[[] := Dir])
      modifies this
      ensures Valid()
      ensures e.None? ==> Complete(old(tree), layers, files)
      ensures e.None? ==> Fits(fold, sha, store, old(tree), layers)
      ensures e.Some? ==> TakenBack(old(tree), tree, NamedBy(fold, layers)) && present == !madeDir
      ensures e.Some? ==> Blames(fold, sha, mayFail, store, old(tree), layers, e.value)
    {
      files := [];
      ghost var t0 := tree;
      var dirs: seq<Path>, mine: set<nat> := [], {};
      NothingYet(layers, store);
      for i := 0 to |layers|
        invariant Valid() && present && Written(t0, layers, i, store, files, dirs, mine)
      {
        ghost var gone;
        ghost var (t, before, made, ids) := (tree, files, dirs, mine);
        files, dirs, mine, e, gone := WriteNext(layers, i, store, files, dirs, mine, t0);
        if e.Some? {
          FaultBlames(fold, sha, mayFail, store, t0, t, layers, i, before, made, ids, e.value);
          TakeAllBack(layers, files, dirs, madeDir, t0, gone);
          return e, files;
        }
      }
      AllNamed(layers, files);
      if |files| == 0 {
        NoneWritten(t0, layers, store, files, dirs, mine);
        TakeAllBack(layers, files, dirs, madeDir, t0, {});
        return Some(NothingToWrite), files;
      }
      AllWritten(t0, layers, store, files, dirs, mine);
      return None, files;
    }

    /** All or nothing. On success each layer that names a file has a file of
        its own, holding bytes of the size and digest recorded, no two of them
        share one, however the filesystem folds names, and every weight is
        among them. On failure, at any step, everything the run made in the
        directory is gone and nothing else differs, but for regular files it
        had taken a layer's name from. The directory itself is as it was found,
        unless the run made it and then could not open it: then it stays. Where
        nothing can fail, a run succeeds exactly when the layers fit; and each
        reason given for failing is one. */
    method Materialize(layers: seq<Layer>, store: map<Bytes, Bytes>, mkdirFails: bool, openFails: bool)
      returns (e: Option<Fault>, files: seq<Path>)
      requires Valid()
      modifies this
      ensures Valid()
      ensures mkdirFails || openFails ==> e == Some(IOError) && tree == old(tree)
      ensures e.None? ==> Complete(old(tree), layers, files)
      ensures e.Some? ==> TakenBack(old(tree), tree, NamedBy(fold, layers))
      ensures e.Some? ==> (present == old(present) <==> old(present) || mkdirFails || !openFails)
      ensures e.None? ==> Fits(fold, sha, store, old(tree), layers)
      ensures !mayFail && !mkdirFails && !openFails ==> (e.None? <==> Fits(fold, sha, store, old(tree), layers))
      ensures e.Some? ==> Blames(fold, sha, mayFail || mkdirFails || openFails, store, old(tree), layers, e.value)
      ensures e.None? ==> forall l :: l in layers && l.name != "" ==> Delivered(fold, sha, tree, l)
    {
      files := [];
      var madeDir := !present;
      var entered := Enter(mkdirFails, openFails);
      if !entered {
        return Some(IOError), files;
      }
      ghost var t := tree;
      e, files := WriteAll(layers, store, madeDir);
      if e.None? {
        AllDelivered(fold, sha, tree, layers, files);
      } else if !mayFail {
        BlamedDoesNotFit(fold, sha, store, t, layers, e.value);
      }
    }
  }

  // ----- what stands in the way of a name

  /** Something other than a directory lies where the first n components lead. */
  ghost predicate BlockedAt(fold: string -> string, t: Tree, p: Path, n: nat) {
    0 < n <= |p| && Key(fold, p[..n]) in t && t[Key(fold, p[..n])] != Dir
  }

  ghost predicate Blocked(fold: string -> string, t: Tree, p: Path) {
    exists n: nat :: BlockedAt(fold, t, p, n)
  }

  /** A name is taken by what is no regular file, or by a file of this run. */
  ghost predicate NameTaken(t: Tree, mine: set<nat>, k: Path, f: Fault) {
    k in t && if t[k].File? then f == TwoLayersOneFile && t[k].id in mine else f == NotRegular
  }

  /** Why a copy failed. */
  ghost predicate CopyFault(sha: Hasher, mayFail: bool, t: Tree, mine: set<nat>, k: Path, blob: Bytes, l: Layer, f: Fault) {
    || NameTaken(t, mine, k, f)
    || (mayFail && f == IOError)
    || (f == WrongLength && |blob| != l.size)
    || (f == WrongDigest && |blob| == l.size && sha(blob) != l.digest)
  }

  /** Why a layer was not written into the tree as it stood. */
  ghost predicate FaultOf(fold: string -> string, sha: Hasher, mayFail: bool, t: Tree, mine: set<nat>,
                          store: map<Bytes, Bytes>, l: Layer, f: Fault) {
    if l.name == "" then f == Unnamed && l.weight
    else if !l.raw then f == NotRaw
    else if Clean(l.name).None? then f == Escapes
    else NamedFault(fold, sha, mayFail, t, mine, store, Clean(l.name).value, l, f)
  }

  ghost predicate NamedFault(fold: string -> string, sha: Hasher, mayFail: bool, t: Tree, mine: set<nat>,
                             store: map<Bytes, Bytes>, p: Path, l: Layer, f: Fault) {
    || (f == IOError && (mayFail || (p != [] && Blocked(fold, t, p[..|p| - 1]))))
    || (f == NotInStore && l.digest !in store)
    || (l.digest in store && CopyFault(sha, mayFail, t, mine, Key(fold, p), store[l.digest], l, f))
  }

  /** The store holds the blob, with the size and digest recorded. */
  ghost predicate InStore(sha: Hasher, store: map<Bytes, Bytes>, l: Layer) {
    l.digest in store && |store[l.digest]| == l.size && sha(store[l.digest]) == l.digest
  }

  /** A layer that names a file is raw, names it within, and is stored whole. */
  ghost predicate Writable(sha: Hasher, store: map<Bytes, Bytes>, l: Layer) {
    l.name != "" ==> l.raw && Clean(l.name).Some? && InStore(sha, store, l)
  }

  /** Each directory made leads to a file. */
  ghost predicate Leading(dirs: seq<Path>, files: seq<Path>) {
    forall d :: d in dirs ==> exists f :: f in files && Under(f, d)
  }

  lemma SameName(fold: string -> string, t: Tree, t': Tree, p: Path)
    requires t' == t || (|p| > 1 && OnlyDirs(t, t', Prefixes(fold, p[..|p| - 1], |p| - 1)))
    ensures var k := Key(fold, p);
            (k in t' <==> k in t) && (k in t ==> t'[k] == t[k])
  {
    var k := Key(fold, p);
    assert |k| == |p|;
    if |p| > 1 {
      assert forall x :: x in Prefixes(fold, p[..|p| - 1], |p| - 1) ==> |x| < |p|;
      assert k !in Prefixes(fold, p[..|p| - 1], |p| - 1);
    }
  }

  lemma LeadsToNew(fold: string -> string, p: Path, dirs: seq<Path>, dirs': seq<Path>, files: seq<Path>, files': seq<Path>)
    requires files' == files + [Key(fold, p)]
    requires dirs' == dirs || (|p| > 1 && forall d :: d in dirs' ==> d in dirs || d in Prefixes(fold, p[..|p| - 1], |p| - 1))
    ensures Leading(dirs, files) ==> Leading(dirs', files')
  {
    var k := Key(fold, p);
    assert k in files';
    if Leading(dirs, files) {
      forall d | d in dirs'
        ensures exists f :: f in files' && Under(f, d)
      {
        if d in dirs {
          var f :| f in files && Under(f, d);
          assert f in files';
        } else {
          var m :| 1 <= m <= |p| - 1 && Key(fold, p[..|p| - 1][..m]) == d;
          assert Under(k, d);
        }
      }
    }
  }

  // ----- exactly when a run succeeds, and what a failure means

  /** The file a layer names. */
  ghost predicate NamesFile(fold: string -> string, l: Layer, k: Path) {
    l.name != "" && Clean(l.name).Some? && k == Key(fold, Clean(l.name).value)
  }

  /** A name with room: not the directory itself, free or a regular file's, and
      with nothing but directories above it. */
  ghost predicate HasRoom(t: Tree, k: Path) {
    k != [] && (k in t ==> t[k].File?) && forall n :: 0 < n < |k| && k[..n] in t ==> t[k[..n]] == Dir
  }

  /** No two layers name one file, and none names what lies above another's. */
  ghost predicate NamesApart(fold: string -> string, layers: seq<Layer>) {
    forall i, j :: 0 <= i < |layers| && 0 <= j < |layers| && i != j ==> !Clash(fold, layers[i], layers[j])
  }

  ghost predicate Clash(fold: string -> string, l: Layer, m: Layer) {
    l.name != "" && m.name != "" && Clean(l.name).Some? && Clean(m.name).Some?
    && var (a, b) := (Key(fold, Clean(l.name).value), Key(fold, Clean(m.name).value));
       a == b || Under(a, b)
  }

  ghost predicate Fits(fold: string -> string, sha: Hasher, store: map<Bytes, Bytes>, t: Tree, layers: seq<Layer>) {
    && (forall l :: l in layers ==> Placed(l) && Writable(sha, store, l))
    && (exists l :: l in layers && l.name != "")
    && (forall l, k :: l in layers && NamesFile(fold, l, k) ==> HasRoom(t, k))
    && NamesApart(fold, layers)
  }

  /** What each reason for failing says about the layers, the store and the tree
      as it was found. */
  ghost predicate Blames(fold: string -> string, sha: Hasher, mayFail: bool, store: map<Bytes, Bytes>, t: Tree,
                         layers: seq<Layer>, f: Fault) {
    match f
    case Unnamed => exists l :: l in layers && l.name == "" && l.weight
    case NotRaw => exists l :: l in layers && l.name != "" && !l.raw
    case Escapes => exists l :: l in layers && l.name != "" && Clean(l.name).None?
    case NotInStore => exists l :: l in layers && l.name != "" && l.digest !in store
    case WrongLength => exists l :: l in layers && l.name != "" && l.digest in store && |store[l.digest]| != l.size
    case WrongDigest =>
      exists l :: l in layers && l.name != "" && l.digest in store && sha(store[l.digest]) != l.digest
    case TwoLayersOneFile => !NamesApart(fold, layers)
    case NotRegular => !NamesApart(fold, layers) || exists l, k :: l in layers && NamesFile(fold, l, k) && !HasRoom(t, k)
    case IOError =>
      mayFail || !NamesApart(fold, layers) || exists l, k :: l in layers && NamesFile(fold, l, k) && !HasRoom(t, k)
    case NothingToWrite => forall l :: l in layers ==> l.name == ""
  }

  lemma BlamedDoesNotFit(fold: string -> string, sha: Hasher, store: map<Bytes, Bytes>, t: Tree, layers: seq<Layer>, f: Fault)
    requires Blames(fold, sha, false, store, t, layers, f)
    ensures !Fits(fold, sha, store, t, layers)
  {
  }

  /** The layer's file holds bytes of the size and digest recorded. */
  ghost predicate Delivered(fold: string -> string, sha: Hasher, t: Tree, l: Layer) {
    exists k :: NamesFile(fold, l, k) && k in t && t[k].File? && |t[k].bytes| == l.size && sha(t[k].bytes) == l.digest
  }

  /** A file written is one some layer before names. */
  lemma {:induction false} NamingIs(layers: seq<Layer>, l: Layer)
    ensures l in Naming(layers) <==> l in layers && l.name != ""
    decreases |layers|
  {
    if layers != [] {
      var (init, last) := (layers[..|layers| - 1], layers[|layers| - 1]);
      NamingIs(init, l);
      assert layers == init + [last];
    }
  }

  lemma {:induction false} NamingGrows(layers: seq<Layer>, i: nat, j: nat)
    requires i <= j <= |layers|
    ensures Naming(layers[..i]) <= Naming(layers[..j])
    decreases j
  {
    if i < j {
      NamingGrows(layers, i, j - 1);
      NamingMore(layers, j - 1);
    }
  }

  /** The place of a layer among those that name a file. */
  lemma NamingAt(layers: seq<Layer>, i: nat)
    requires i < |layers| && layers[i].name != ""
    ensures |Naming(layers[..i])| < |Naming(layers)| && Naming(layers)[|Naming(layers[..i])|] == layers[i]
  {
    NamingMore(layers, i);
    NamingGrows(layers, i + 1, |layers|);
    assert layers[..|layers|] == layers;
  }

  lemma NamingApart(layers: seq<Layer>, i: nat, j: nat)
    requires i < j < |layers| && layers[i].name != ""
    ensures |Naming(layers[..i])| < |Naming(layers[..j])|
  {
    NamingMore(layers, i);
    NamingGrows(layers, i + 1, j);
  }

  /** A file made is at a name of one of the layers written so far. */
  lemma FileOfLayer(fold: string -> string, sha: Hasher, t: Tree, layers: seq<Layer>, i: nat, files: seq<Path>, f: Path)
    returns (j: nat)
    requires i <= |layers| && Holds(sha, fold, t, files, Naming(layers[..i])) && f in files
    ensures j < i && NamesFile(fold, layers[j], f)
  {
    var a :| 0 <= a < |files| && files[a] == f;
    var l := Naming(layers[..i])[a];
    NamingIs(layers[..i], l);
    j :| 0 <= j < i && layers[j] == l;
  }

  lemma FileAt(fold: string -> string, sha: Hasher, t: Tree, layers: seq<Layer>, files: seq<Path>, i: nat, k: Path)
    requires Holds(sha, fold, t, files, Naming(layers)) && i < |layers| && NamesFile(fold, layers[i], k)
    ensures |Naming(layers[..i])| < |files| && files[|Naming(layers[..i])|] == k && k in t && t[k].File?
  {
    NamingAt(layers, i);
  }

  lemma AllDelivered(fold: string -> string, sha: Hasher, t: Tree, layers: seq<Layer>, files: seq<Path>)
    requires Holds(sha, fold, t, files, Naming(layers))
    ensures forall l :: l in layers && l.name != "" ==> Delivered(fold, sha, t, l)
  {
    forall l | l in layers && l.name != ""
      ensures Delivered(fold, sha, t, l)
    {
      NamingIs(layers, l);
      var a :| 0 <= a < |files| && Naming(layers)[a] == l;
      assert NamesFile(fold, l, files[a]);
    }
  }

  lemma FileHasRoom(t0: Tree, t: Tree, files: seq<Path>, dirs: seq<Path>, k: Path)
    requires Rooted(t) && Standing(t0, t, files, dirs, {}) && k in files
    ensures HasRoom(t0, k)
  {
    forall n | 0 < n < |k| && k[..n] in t0
      ensures t0[k[..n]] == Dir
    {
      RootedAbove(t, k, n);
    }
  }

  lemma FilesApart(t: Tree, a: Path, b: Path)
    requires Rooted(t) && a in t && b in t && t[a].File? && t[b].File?
    ensures !Under(a, b)
  {
    if Under(a, b) {
      RootedAbove(t, a, |b|);
    }
  }

  lemma Clashing(fold: string -> string, l: Layer, m: Layer) returns (a: Path, b: Path)
    requires Clash(fold, l, m)
    ensures NamesFile(fold, l, a) && NamesFile(fold, m, b) && (a == b || Under(a, b))
  {
    a, b := Key(fold, Clean(l.name).value), Key(fold, Clean(m.name).value);
  }

  ghost predicate AllDiffer(files: seq<Path>) {
    forall x, y :: 0 <= x < y < |files| ==> files[x] != files[y]
  }

  lemma KeysApart(fold: string -> string, sha: Hasher, t: Tree, layers: seq<Layer>, files: seq<Path>,
                  i: nat, j: nat, a: Path, b: Path)
    requires Rooted(t) && Holds(sha, fold, t, files, Naming(layers)) && i < |layers| && j < |layers| && i != j
    requires AllDiffer(files)
    requires NamesFile(fold, layers[i], a) && NamesFile(fold, layers[j], b)
    ensures a != b && !Under(a, b)
  {
    FileAt(fold, sha, t, layers, files, i, a);
    FileAt(fold, sha, t, layers, files, j, b);
    FilesApart(t, a, b);
    if i < j {
      NamingApart(layers, i, j);
    } else {
      NamingApart(layers, j, i);
    }
  }

  lemma WrittenApart(fold: string -> string, sha: Hasher, t: Tree, layers: seq<Layer>, files: seq<Path>, i: nat, j: nat)
    requires Rooted(t) && Holds(sha, fold, t, files, Naming(layers)) && i < |layers| && j < |layers| && i != j
    requires AllDiffer(files)
    ensures !Clash(fold, layers[i], layers[j])
  {
    if Clash(fold, layers[i], layers[j]) {
      var a, b := Clashing(fold, layers[i], layers[j]);
      KeysApart(fold, sha, t, layers, files, i, j, a, b);
    }
  }

  lemma WrittenHaveRoom(fold: string -> string, sha: Hasher, t0: Tree, t: Tree, layers: seq<Layer>,
                        files: seq<Path>, dirs: seq<Path>)
    requires Rooted(t) && Standing(t0, t, files, dirs, {}) && Holds(sha, fold, t, files, Naming(layers))
    ensures forall l, k :: l in layers && NamesFile(fold, l, k) ==> HasRoom(t0, k)
  {
    forall l, k | l in layers && NamesFile(fold, l, k)
      ensures HasRoom(t0, k)
    {
      var i :| 0 <= i < |layers| && layers[i] == l;
      FileAt(fold, sha, t, layers, files, i, k);
      FileHasRoom(t0, t, files, dirs, k);
    }
  }

  /** A run that wrote everything had layers that fit. */
  lemma WrittenFits(fold: string -> string, sha: Hasher, store: map<Bytes, Bytes>, t0: Tree, t: Tree, layers: seq<Layer>,
                    files: seq<Path>, dirs: seq<Path>, mine: set<nat>)
    requires Rooted(t) && Running(t0, t, files, dirs, mine) && Holds(sha, fold, t, files, Naming(layers)) && files != []
    requires forall l :: l in layers ==> Placed(l) && Writable(sha, store, l)
    ensures Fits(fold, sha, store, t0, layers)
  {
    NamingIs(layers, Naming(layers)[0]);
    WrittenHaveRoom(fold, sha, t0, t, layers, files, dirs);
    assert AllDiffer(files);
    forall i, j | 0 <= i < |layers| && 0 <= j < |layers| && i != j
      ensures !Clash(fold, layers[i], layers[j])
    {
      WrittenApart(fold, sha, t, layers, files, i, j);
    }
  }

  /** What stands at a layer's name when its turn comes is a file of the run, which
      an earlier layer names... */
  lemma FileTakenMeans(fold: string -> string, sha: Hasher, t0: Tree, t: Tree, layers: seq<Layer>, i: nat,
                       files: seq<Path>, mine: set<nat>, k: Path)
    requires i < |layers| && OwnFiles(t0, t, files, mine) && Holds(sha, fold, t, files, Naming(layers[..i]))
    requires NamesFile(fold, layers[i], k) && NameTaken(t, mine, k, TwoLayersOneFile)
    ensures !NamesApart(fold, layers)
  {
    var j := FileOfLayer(fold, sha, t, layers, i, files, k);
    assert Clash(fold, layers[i], layers[j]);
  }

  /** ...or a directory it made, above an earlier layer's file, or was there. */
  lemma OtherTakenMeans(fold: string -> string, sha: Hasher, t0: Tree, t: Tree, layers: seq<Layer>, i: nat,
                        files: seq<Path>, dirs: seq<Path>, mine: set<nat>, k: Path)
    requires i < |layers| && Standing(t0, t, files, dirs, {}) && Holds(sha, fold, t, files, Naming(layers[..i]))
    requires Leading(dirs, files) && NamesFile(fold, layers[i], k) && NameTaken(t, mine, k, NotRegular)
    ensures !NamesApart(fold, layers) || !HasRoom(t0, k)
  {
    if k in dirs {
      var g :| g in files && Under(g, k);
      var j := FileOfLayer(fold, sha, t, layers, i, files, g);
      assert Clash(fold, layers[j], layers[i]);
    }
  }

  lemma BlockedMeans(fold: string -> string, sha: Hasher, t0: Tree, t: Tree, layers: seq<Layer>, i: nat,
                     files: seq<Path>, dirs: seq<Path>, mine: set<nat>, p: Path)
    requires i < |layers| && Running(t0, t, files, dirs, mine) && Holds(sha, fold, t, files, Naming(layers[..i]))
    requires p != [] && NamesFile(fold, layers[i], Key(fold, p)) && Blocked(fold, t, p[..|p| - 1])
    ensures !NamesApart(fold, layers) || !HasRoom(t0, Key(fold, p))
  {
    var k := Key(fold, p);
    var n: nat :| BlockedAt(fold, t, p[..|p| - 1], n);
    var q := k[..n];
    assert q == Key(fold, p[..|p| - 1][..n]);
    if q in files {
      var j := FileOfLayer(fold, sha, t, layers, i, files, q);
      assert Under(k, q);
      assert Clash(fold, layers[i], layers[j]);
    } else {
      assert q in t0 && t0[q] != Dir;
    }
  }

  lemma NamedBlames(fold: string -> string, sha: Hasher, mayFail: bool, store: map<Bytes, Bytes>, t0: Tree, t: Tree,
                    layers: seq<Layer>, i: nat, files: seq<Path>, dirs: seq<Path>, mine: set<nat>, p: Path, f: Fault)
    requires i < |layers| && Running(t0, t, files, dirs, mine) && Holds(sha, fold, t, files, Naming(layers[..i]))
    requires Leading(dirs, files) && NamesFile(fold, layers[i], Key(fold, p))
    requires NamedFault(fold, sha, mayFail, t, mine, store, p, layers[i], f)
    ensures Blames(fold, sha, mayFail, store, t0, layers, f)
  {
    var l, k := layers[i], Key(fold, p);
    assert l in layers && NamesFile(fold, l, k);
    match f {
      case TwoLayersOneFile => FileTakenMeans(fold, sha, t0, t, layers, i, files, mine, k);
      case NotRegular => OtherTakenMeans(fold, sha, t0, t, layers, i, files, dirs, mine, k);
      case IOError =>
        if !mayFail {
          BlockedMeans(fold, sha, t0, t, layers, i, files, dirs, mine, p);
        }
      case _ =>
    }
  }

  /** Whatever a layer's turn fails for, the layers, the store or the tree as it
      was found are to blame, or the filesystem. */
  lemma FaultBlames(fold: string -> string, sha: Hasher, mayFail: bool, store: map<Bytes, Bytes>, t0: Tree, t: Tree,
                    layers: seq<Layer>, i: nat, files: seq<Path>, dirs: seq<Path>, mine: set<nat>, f: Fault)
    requires i < |layers| && Running(t0, t, files, dirs, mine) && Holds(sha, fold, t, files, Naming(layers[..i]))
    requires Leading(dirs, files) && FaultOf(fold, sha, mayFail, t, mine, store, layers[i], f)
    ensures Blames(fold, sha, mayFail, store, t0, layers, f)
  {
    var l := layers[i];
    assert l in layers;
    if l.name != "" && l.raw && Clean(l.name).Some? {
      NamedBlames(fold, sha, mayFail, store, t0, t, layers, i, files, dirs, mine, Clean(l.name).value, f);
    }
  }

  lemma FreshStands(t0: Tree, t: Tree, t': Tree, files: seq<Path>, dirs: seq<Path>, mine: set<nat>,
                    k: Path, id: nat, b: Bytes, n: nat)
    requires Running(t0, t, files, dirs, mine) && IdsBelow(t0, mine, n) && t' == t[k := File(id, b)]
    requires (forall x :: x in t && t[x].File? ==> t[x].id < n) && id >= n
    requires k in t ==> t[k].File? && t[k].id !in mine
    ensures Running(t0, t', files + [k], dirs, mine + {id}) && IdsBelow(t0, mine + {id}, id + 1)
    ensures SameAt(t, t', files)
  {
    MadeStands(t0, t, t', files, dirs, mine, k, id, b);
  }

  /** Only a layer without weights may go without a file. */
  predicate Placed(l: Layer) {
    l.name != "" || !l.weight
  }

  /** Beside the files named, nothing changed but for directories made. */
  ghost predicate OnlyAdded(t0: Tree, t: Tree, files: seq<Path>) {
    && (forall k :: k in t0 && k !in files ==> k in t && t[k] == t0[k])
    && (forall k :: k in t && k !in t0 && k !in files ==> t[k] == Dir)
  }

  lemma NamingMore(layers: seq<Layer>, i: nat)
    requires i < |layers|
    ensures Naming(layers[..i + 1]) == Naming(layers[..i]) + if layers[i].name == "" then [] else [layers[i]]
  {
    assert layers[..i + 1][..i] == layers[..i];
  }

  lemma MoreNamed(t0: Tree, t: Tree, a: set<Path>, b: set<Path>)
    requires TakenBack(t0, t, a) && a <= b
    ensures TakenBack(t0, t, b)
  {
  }

  ghost predicate HoldsOne(sha: Hasher, fold: string -> string, t: Tree, f: Path, l: Layer) {
    && Clean(l.name).Some? && f == Key(fold, Clean(l.name).value)
    && f in t && t[f].File? && |t[f].bytes| == l.size && sha(t[f].bytes) == l.digest
  }

  /** The new file is the layer's, and holds what the layer records. */
  ghost predicate Added(sha: Hasher, fold: string -> string, t: Tree, files: seq<Path>, files': seq<Path>, l: Layer) {
    |files'| == |files| + 1 && files'[..|files|] == files && HoldsOne(sha, fold, t, files'[|files|], l)
  }

  ghost predicate SameAt(t: Tree, t': Tree, files: seq<Path>) {
    forall f :: f in files ==> f in t && f in t' && t'[f] == t[f]
  }

  /** What a run must know of itself to be taken back from here. */
  ghost predicate Stopped(t0: Tree, t: Tree, files: seq<Path>, dirs: seq<Path>, gone: set<Path>) {
    Standing(t0, t, files, dirs, gone) && OutermostFirst(dirs)
  }

  /** A run that has failed nothing yet. */
  ghost predicate Running(t0: Tree, t: Tree, files: seq<Path>, dirs: seq<Path>, mine: set<nat>) {
    && Standing(t0, t, files, dirs, {}) && OutermostFirst(dirs) && OwnFiles(t0, t, files, mine)
    && forall d :: d in dirs ==> d in t
  }

  ghost predicate IdsBelow(t0: Tree, mine: set<nat>, next: nat) {
    && (forall i :: i in mine ==> i < next)
    && forall k :: k in t0 && t0[k].File? ==> t0[k].id < next
  }

  lemma NamedByOne(fold: string -> string, layers: seq<Layer>, i: nat)
    requires i < |layers|
    ensures NamedBy(fold, [layers[i]]) <= NamedBy(fold, layers)
  {
  }

  lemma HoldsMore(sha: Hasher, fold: string -> string, t: Tree, t': Tree,
                  files: seq<Path>, files': seq<Path>, done: seq<Layer>, l: Layer)
    requires Holds(sha, fold, t, files, done)
    requires SameAt(t, t', files)
    requires if l.name == "" then files' == files else Added(sha, fold, t', files, files', l)
    ensures Holds(sha, fold, t', files', done + if l.name == "" then [] else [l])
  {
    assert forall i :: 0 <= i < |files| ==> files[i] in files;
    assert forall i :: 0 <= i < |files| ==> files'[i] == files[i];
  }

  lemma PrefixesThere(fold: string -> string, t: Tree, p: Path)
    requires Rooted(t) && Key(fold, p) in t && t[Key(fold, p)] == Dir
    ensures Prefixes(fold, p, |p|) <= t.Keys
  {
    var k := Key(fold, p);
    forall n | 1 <= n <= |p|
      ensures Key(fold, p[..n]) in t
    {
      assert Key(fold, p[..n]) == k[..n];
      if n < |p| {
        RootedAbove(t, k, n);
      } else {
        assert k[..n] == k;
      }
    }
  }

  lemma AllDirsThere(t: Tree, t': Tree, dirs: seq<Path>, missing: seq<Path>)
    requires forall k :: k in t ==> k in t'
    requires forall d :: d in dirs ==> d in t
    requires SetOf(missing) <= t'.Keys
    ensures forall d :: d in dirs + missing ==> d in t'
  {
    assert forall d :: d in missing ==> d in SetOf(missing);
  }

  lemma DirsNew(t0: Tree, t: Tree, files: seq<Path>, dirs: seq<Path>, missing: seq<Path>)
    requires Standing(t0, t, files, dirs, {}) && SetOf(missing) !! t.Keys
    ensures forall d :: d in missing ==> d !in t && d !in t0 && d !in files
  {
    assert forall d :: d in missing ==> d in SetOf(missing);
  }

  lemma DirsOrder(t: Tree, dirs: seq<Path>, missing: seq<Path>)
    requires Rooted(t) && OutermostFirst(dirs) && OutermostFirst(missing)
    requires (forall d :: d in dirs ==> d in t) && forall d :: d in missing ==> d !in t
    ensures OutermostFirst(dirs + missing)
  {
    forall a, m | a in dirs && m in missing
      ensures !Under(a, m) && a != m
    {
      if Under(a, m) {
        RootedAbove(t, a, |m|);
      }
    }
    var all := dirs + missing;
    forall i, j | 0 <= i < j < |all|
      ensures !Under(all[i], all[j]) && all[i] != all[j]
    {
      if i < |dirs| && j >= |dirs| {
        assert dirs[i] in dirs && missing[j - |dirs|] in missing;
      }
    }
  }

  lemma DirsStand(t0: Tree, t: Tree, t': Tree, files: seq<Path>, dirs: seq<Path>, mine: set<nat>, missing: seq<Path>)
    requires Running(t0, t, files, dirs, mine)
    requires (forall d :: d in missing ==> d !in t && d !in t0 && d !in files) && OnlyDirs(t, t', SetOf(missing) + t.Keys)
    ensures Standing(t0, t', files, dirs + missing, {})
    ensures OwnFiles(t0, t', files, mine)
  {
    assert forall d :: d in dirs + missing <==> d in dirs || d in missing;
    forall i, j | 0 <= i < j < |files|
      ensures files[i] != files[j] && DifferentFiles(t', files[i], files[j])
    {
      assert DifferentFiles(t, files[i], files[j]);
    }
  }

  lemma TookStands(t0: Tree, t: Tree, t': Tree, files: seq<Path>, dirs: seq<Path>, mine: set<nat>, k: Path)
    requires Running(t0, t, files, dirs, mine) && k in t && t[k].File? && t[k].id !in mine && t' == t - {k}
    ensures Standing(t0, t', files, dirs, {k})
  {
  }

  lemma AddedAt(sha: Hasher, fold: string -> string, t: Tree, files: seq<Path>, k: Path, id: nat, b: Bytes, l: Layer, right: bool)
    requires Clean(l.name).Some? && k == Key(fold, Clean(l.name).value) && k in t && t[k] == File(id, b)
    requires right ==> |b| == l.size && sha(b) == l.digest
    ensures right ==> Added(sha, fold, t, files, files + [k], l)
    ensures SetOf(files + [k]) == SetOf(files) + {k}
  {
    assert (files + [k])[..|files|] == files;
  }

  lemma MadeStands(t0: Tree, t: Tree, t': Tree, files: seq<Path>, dirs: seq<Path>, mine: set<nat>, k: Path, id: nat, b: Bytes)
    requires Running(t0, t, files, dirs, mine) && t' == t[k := File(id, b)]
    requires k in t ==> t[k].File? && t[k].id !in mine
    requires id !in mine && forall x :: x in t && t[x].File? ==> t[x].id != id
    requires forall x :: x in t0 && t0[x].File? ==> t0[x].id != id
    ensures Running(t0, t', files + [k], dirs, mine + {id})
    ensures SameAt(t, t', files)
  {
    var files' := files + [k];
    assert forall f :: f in files' <==> f in files || f == k;
    assert k !in files;
    forall i, j | 0 <= i < j < |files'|
      ensures files'[i] != files'[j] && DifferentFiles(t', files'[i], files'[j])
    {
      assert files'[i] in files;
      if j < |files| {
        assert files[j] in files && DifferentFiles(t, files[i], files[j]);
      }
    }
  }

  /** By the time a directory is taken away, what was under it has been. */
  lemma NothingUnder(t0: Tree, t: Tree, files: seq<Path>, dirs: seq<Path>, gone: set<Path>, i: nat)
    requires Rooted(t0) && Standing(t0, t, files, dirs, gone) && OutermostFirst(dirs) && i < |dirs|
    ensures dirs[i] != []
    ensures forall k :: k in t - SetOf(files) - SetOf(dirs[i + 1..]) ==> !Under(k, dirs[i])
  {
    var d := dirs[i];
    assert d in dirs;
    forall k | k in t - SetOf(files) - SetOf(dirs[i + 1..])
      ensures !Under(k, d)
    {
      if k in dirs {
        forall m | i < m < |dirs|
          ensures dirs[m] in SetOf(dirs[i + 1..])
        {
          assert dirs[i + 1..][m - i - 1] == dirs[m];
        }
      } else if Under(k, d) {
        RootedAbove(t0, k, |d|);
      }
    }
  }

  lemma OneMoreGone(t: Tree, dirs: seq<Path>, i: nat)
    requires i < |dirs|
    ensures t - SetOf(dirs[i..]) == t - SetOf(dirs[i + 1..]) - {dirs[i]}
    ensures dirs[i] !in t - SetOf(dirs[i + 1..]) ==> t - SetOf(dirs[i..]) == t - SetOf(dirs[i + 1..])
  {
    assert SetOf(dirs[i..]) == SetOf(dirs[i + 1..]) + {dirs[i]};
  }

  lemma DirLeft(t0: Tree, t: Tree, files: seq<Path>, dirs: seq<Path>, gone: set<Path>, i: nat)
    requires Standing(t0, t, files, dirs, gone) && i < |dirs|
    requires dirs[i] in t - SetOf(files) - SetOf(dirs[i + 1..])
    ensures (t - SetOf(files) - SetOf(dirs[i + 1..]))[dirs[i]] == Dir
  {
    assert dirs[i] in dirs;
  }

  lemma Overwritten(t: Tree, k: Path, a: Node, b: Node)
    ensures t[k := a][k := b] == t[k := b] && (t - {k})[k := b] == t[k := b]
  {
  }

  lemma BackToStart(t0: Tree, t: Tree, files: seq<Path>, dirs: seq<Path>, gone: set<Path>)
    requires Standing(t0, t, files, dirs, gone)
    ensures TakenBack(t0, t - SetOf(files) - SetOf(dirs), SetOf(files) + gone)
  {
  }

  function SetOf(ps: seq<Path>): set<Path> {
    set p | p in ps
  }

  /** The names of the first n components of a path. */
  ghost function Prefixes(fold: string -> string, p: Path, n: nat): set<Path>
    requires n <= |p|
  {
    set m | 1 <= m <= n :: Key(fold, p[..m])
  }

  lemma PrefixesMore(fold: string -> string, p: Path, n: nat)
    requires n < |p|
    ensures Prefixes(fold, p, n + 1) == Prefixes(fold, p, n) + {Key(fold, p[..n + 1])}
  {
  }

  lemma PrefixesWithin(fold: string -> string, p: Path, n: nat)
    requires n <= |p|
    ensures Prefixes(fold, p, n) <= Prefixes(fold, p, |p|)
  {
  }

  lemma KeyAbove(fold: string -> string, p: Path, n: nat)
    requires n < |p|
    ensures |Key(fold, p[..n + 1])| == n + 1 && Key(fold, p[..n + 1])[..n] == Key(fold, p[..n])
  {
  }

  lemma OneDirMore(t: Tree, t': Tree, where: set<Path>, k: Path)
    requires OnlyDirs(t, t', where)
    ensures k in t' ==> OnlyDirs(t, t', where + {k})
    ensures k !in t' ==> OnlyDirs(t, t'[k := Dir], where + {k})
  {
  }

  /** Nothing but directories was added, and only where allowed. */
  ghost predicate OnlyDirs(t: Tree, t': Tree, where: set<Path>) {
    && (forall k :: k in t ==> k in t' && t'[k] == t[k])
    && (forall k :: k in t' && k !in t ==> t'[k] == Dir && k in where)
  }
}
