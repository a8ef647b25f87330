/** The cache directory and its persisted list, with every file-system call allowed to fail. */
module DownloadCache {
  import opened PersistedState
  import opened RecencyList
  import opened Sequences

  type Name = string

  const STAGING_SUFFIX := ".staging"
  const RENAME_ATTEMPTS := 20

  // How the file system answers a touch: whether the evicted directory can be removed, and the save.
  datatype TouchIo = TouchIo(removable: bool, write: WriteOutcome<seq<Name>>)

  // How it answers a creation; `renames` are the successive attempts.
  datatype CreateIo = CreateIo(cleaned: bool, made: bool, filled: bool, touch: TouchIo, renames: seq<bool>)

  predicate Finished(d: Name) {
    !(|d| >= |STAGING_SUFFIX| && d[|d| - |STAGING_SUFFIX|..] == STAGING_SUFFIX)
  }

  lemma StagingIsNotFinished(name: Name)
    ensures !Finished(name + STAGING_SUFFIX) && name + STAGING_SUFFIX != name
  {
    var d := name + STAGING_SUFFIX;
    assert d[|d| - |STAGING_SUFFIX|..] == STAGING_SUFFIX;
  }

  // ---------- one operation ----------

  // The directories on disk and the list in memory.
  datatype Cache = Cache(dirs: set<Name>, list: seq<Name>)

  function AfterTouch(c: Cache, name: Name, removable: bool): Cache {
    var t := [name] + WithoutFirst(c.list, name);
    if |t| <= KEEP_LRU then c.(list := t)
    else
      var last := t[|t| - 1];
      if last !in c.dirs then c.(list := t[..|t| - 1])
      else if removable then Cache(c.dirs - {last}, t[..|t| - 1])
      else c.(list := t)
  }

  function AfterExists(c: Cache, name: Name, removable: bool): Cache {
    if name in c.dirs then AfterTouch(c, name, removable) else c
  }

  function AfterDelete(c: Cache, name: Name, removable: bool): Cache {
    if name in c.dirs && !removable then c else Cache(c.dirs - {name}, Without(c.list, name))
  }

  predicate Renames(io: CreateIo) {
    exists i :: 0 <= i < |io.renames| && i <= RENAME_ATTEMPTS && io.renames[i]
  }

  function AfterCreate(c: Cache, name: Name, io: CreateIo): Cache {
    var temp := name + STAGING_SUFFIX;
    var dirs := if io.cleaned then c.dirs - {temp} else c.dirs;
    if name in c.dirs then c
    else if !io.made then c.(dirs := dirs)
    else if !io.filled then c.(dirs := dirs + {temp})
    else
      var t := AfterTouch(c.(dirs := dirs + {temp}), name, io.touch.removable);
      if temp in t.dirs && Renames(io) then t.(dirs := t.dirs - {temp} + {name}) else t
  }

  datatype Op =
    | Exists(name: Name, removable: bool)
    | Delete(name: Name, removable: bool)
    | Create(name: Name, io: CreateIo)

  function Apply(c: Cache, op: Op): Cache {
    match op
    case Exists(name, removable) => AfterExists(c, name, removable)
    case Delete(name, removable) => AfterDelete(c, name, removable)
    case Create(name, io) => AfterCreate(c, name, io)
  }

  function After(c: Cache, ops: seq<Op>): Cache {
    if ops == [] then c else Apply(After(c, ops[..|ops| - 1]), ops[|ops| - 1])
  }

  // ---------- what every run keeps ----------

  // Every finished directory is named in the list.
  ghost predicate Named(c: Cache) {
    forall d :: d in c.dirs && Finished(d) ==> d in c.list
  }

  lemma TouchKeepsNamed(c: Cache, name: Name, removable: bool)
    requires Named(c)
    ensures Named(AfterTouch(c, name, removable)) && AfterTouch(c, name, removable).dirs <= c.dirs
    ensures AfterTouch(c, name, removable).list != [] && AfterTouch(c, name, removable).list[0] == name
  {
    WithoutFirstMembers(c.list, name);
    var t, t' := [name] + WithoutFirst(c.list, name), AfterTouch(c, name, removable);
    forall d | d in t'.dirs && Finished(d) ensures d in t'.list {
      assert d in t;
      if t'.list != t {
        assert t == t'.list + [t[|t| - 1]];
      }
    }
  }

  lemma StepKeepsNamed(c: Cache, op: Op)
    requires Named(c)
    ensures Named(Apply(c, op))
  {
    match op
    case Exists(name, removable) => TouchKeepsNamed(c, name, removable);
    case Delete(name, removable) => WithoutMembers(c.list, name);
    case Create(name, io) =>
      var temp := name + STAGING_SUFFIX;
      StagingIsNotFinished(name);
      var dirs := if io.cleaned then c.dirs - {temp} else c.dirs;
      TouchKeepsNamed(c.(dirs := dirs + {temp}), name, io.touch.removable);
  }

  // Whatever removals, renames and saves fail, no operation leaves a finished directory behind
  // that the list does not know about.
  lemma {:induction false} RunKeepsNamed(c: Cache, ops: seq<Op>)
    requires Named(c)
    ensures Named(After(c, ops))
  {
    if ops != [] {
      RunKeepsNamed(c, ops[..|ops| - 1]);
      StepKeepsNamed(After(c, ops[..|ops| - 1]), ops[|ops| - 1]);
    }
  }

  // A touch removes at most one directory, the one named last, and only when more than five would be named.
  lemma TouchEvictsAtMostOne(c: Cache, name: Name, removable: bool)
    ensures var t, named := AfterTouch(c, name, removable), [name] + WithoutFirst(c.list, name);
            || (t.dirs == c.dirs && (t.list == named || (|named| > 5 && named[|named| - 1] !in c.dirs)))
            || (exists d :: d in c.dirs && t.dirs == c.dirs - {d} && t.list + [d] == named && |named| > 5 && removable)
    ensures var t, named := AfterTouch(c, name, removable), [name] + WithoutFirst(c.list, name);
            t.list == named || t.list + [named[|named| - 1]] == named
  {
    var named := [name] + WithoutFirst(c.list, name);
    assert named == named[..|named| - 1] + [named[|named| - 1]];
    if |named| > 5 && named[|named| - 1] in c.dirs && removable {
      assert AfterTouch(c, name, removable).list + [named[|named| - 1]] == named;
    }
  }

  // A name found in the cache becomes the most recent; a name that is not changes nothing.
  lemma FoundIsMostRecent(c: Cache, name: Name, removable: bool)
    ensures var t := AfterExists(c, name, removable);
            if name in c.dirs then t.list != [] && t.list[0] == name && t == AfterTouch(c, name, removable) else t == c
  {
    if name in c.dirs {
      var named := [name] + WithoutFirst(c.list, name);
      assert named[0] == name;
    }
  }

  // A deleted name is neither on disk nor in the list, and nothing else goes or moves; if its directory
  // cannot be removed, nothing changes at all.
  lemma DeletedIsGone(c: Cache, name: Name, removable: bool)
    ensures var d := AfterDelete(c, name, removable);
            if name in c.dirs && !removable then d == c
            else name !in d.list && forall x :: x in d.dirs <==> x in c.dirs && x != name
    ensures var d := AfterDelete(c, name, removable);
            && (forall x :: x in c.list && x != name ==> x in d.list)
            && InOrderOf(d.list, c.list)
  {
    WithoutMembers(c.list, name);
    WithoutInOrder(c.list, name);
    var d := AfterDelete(c, name, removable);
    forall i, j | 0 <= i < j < |d.list| ensures Precedes(c.list, d.list[i], d.list[j]) {
      assert d.list == c.list || d.list == Without(c.list, name);
    }
  }

  // A creation succeeds if and only if the staging directory could be made and filled, was not itself
  // evicted, and one of the first 21 renames went through; the staging directory is then gone. No other
  // directory appears.
  lemma CreatedIff(c: Cache, name: Name, io: CreateIo)
    requires name !in c.dirs
    ensures var t, temp := AfterCreate(c, name, io), name + STAGING_SUFFIX;
            && (name in t.dirs <==>
                  io.made && io.filled && (exists i :: 0 <= i < |io.renames| && i < 21 && io.renames[i]) &&
                  temp in AfterTouch(c.(dirs := c.dirs + {temp}), name, io.touch.removable).dirs)
            && (name in t.dirs ==> temp !in t.dirs)
            && (forall d :: d in t.dirs && d != name && d != temp ==> d in c.dirs)
  {
    var temp := name + STAGING_SUFFIX;
    StagingIsNotFinished(name);
    var dirs := if io.cleaned then c.dirs - {temp} else c.dirs;
    assert dirs + {temp} == c.dirs + {temp};
    TouchEvictsAtMostOne(c.(dirs := dirs + {temp}), name, io.touch.removable);
  }

  // On a list without duplicates, a touch is a touch of the recency list.
  lemma TouchIsRecency(c: Cache, name: Name, removable: bool)
    requires Distinct(c.list)
    ensures var t := ToFront(c.list, name);
            var stuck := t[|t| - 1] in c.dirs && !removable;
            AfterTouch(c, name, removable).list == Touched(c.list, name, stuck) &&
                Distinct(AfterTouch(c, name, removable).list)
    ensures name in c.dirs ==> name in AfterTouch(c, name, removable).dirs
  {
    WithoutFirstDistinct(c.list, name);
    var t := ToFront(c.list, name);
    JustTouchedStays(c.list, name, t[|t| - 1] in c.dirs && !removable);
    FrontDistinct(c.list, name);
  }

  // ---------- the class ----------

  class DownloadCache {
    const state: Container<seq<Name>>
    var dirs: set<Name>

    constructor (file: File<seq<Name>>, dirs: set<Name>)
      ensures fresh(state) && state.Value() == Reload(file, []) && this.dirs == dirs
    {
      state := new Container([], file);
      this.dirs := dirs;
    }

    ghost function View(): Cache
      reads this, state
    {
      Cache(dirs, state.Value())
    }

    method IndexOf(l: seq<Name>, name: Name) returns (index: nat)
      ensures index <= |l| && name !in l[..index] && (index < |l| ==> l[index] == name)
    {
      index := 0;
      while index < |l| && l[index] != name
        invariant index <= |l| && name !in l[..index]
      {
        index := index + 1;
      }
    }

    method MoveToFront(l: seq<Name>, name: Name) returns (moved: seq<Name>)
      ensures moved == [name] + WithoutFirst(l, name)
    {
      moved := l;
      var index := IndexOf(l, name);
      WithoutFirstMembers(l, name);
      if index < |l| {
        WithoutFirstAt(l, index);
        moved := l[..index] + l[index + 1..];
      }
      moved := [name] + moved;
    }

    method Touch(name: Name, io: TouchIo) returns (saved: bool)
      modifies this, state
      ensures View() == AfterTouch(old(View()), name, io.removable) && saved == io.write.Written?
    {
      var l := state.LoadOrGet();
      l := MoveToFront(l, name);
      if |l| > KEEP_LRU {
        var f := l[|l| - 1];
        if f !in dirs {
          l := l[..|l| - 1];
        } else if io.removable {
          dirs := dirs - {f};
          l := l[..|l| - 1];
        }
      }
      saved := state.Save(l, io.write);
    }

    method Exists(name: Name, io: TouchIo) returns (found: bool)
      modifies this, state
      ensures found <==> name in old(dirs)
      ensures View() == AfterExists(old(View()), name, io.removable)
    {
      if name !in dirs {
        return false;
      }
      var _ := Touch(name, io);
      return true;
    }

    method Delete(name: Name, io: TouchIo) returns (ok: bool)
      modifies this, state
      ensures View() == AfterDelete(old(View()), name, io.removable)
      ensures ok <==> (name in old(dirs) ==> io.removable) && io.write.Written?
    {
      if name in dirs {
        if !io.removable {
          return false;
        }
        dirs := dirs - {name};
      }
      var l := state.LoadOrGet();
      var kept := Retain(l, name);
      ok := state.Save(kept, io.write);
    }

    method Retain(l: seq<Name>, name: Name) returns (kept: seq<Name>)
      ensures kept == Without(l, name)
    {
      kept := [];
      for i := 0 to |l|
        invariant kept == Without(l[..i], name)
      {
        assert l[..i + 1] == l[..i] + [l[i]];
        WithoutSnoc(l[..i], l[i], name);
        if l[i] != name {
          kept := kept + [l[i]];
        }
      }
      assert l[..|l|] == l;
    }

    // A successful creation leaves the directory in place; the staging directory is then gone.
    method Create(name: Name, io: CreateIo) returns (ok: bool)
      modifies this, state
      ensures View() == AfterCreate(old(View()), name, io)
      ensures ok <==> name in dirs
    {
      if name in dirs {
        return true;
      }
      var temp := name + STAGING_SUFFIX;
      StagingIsNotFinished(name);
      if io.cleaned {
        dirs := dirs - {temp};
      }
      if !io.made {
        return false;
      }
      dirs := dirs + {temp};
      if !io.filled {
        return false;
      }
      var _ := Touch(name, io.touch);
      ghost var touched := View();
      var attempt := 0;
      ok := false;
      while attempt <= RENAME_ATTEMPTS && !ok
        invariant 0 <= attempt && (!ok ==> attempt <= RENAME_ATTEMPTS + 1)
        invariant state.Value() == touched.list
        invariant if ok then temp in touched.dirs && Renames(io) && dirs == touched.dirs - {temp} + {name}
                  else dirs == touched.dirs &&
                       (temp in dirs ==> forall i :: 0 <= i < attempt && i < |io.renames| ==> !io.renames[i])
        decreases RENAME_ATTEMPTS + 1 - attempt, !ok
      {
        if attempt < |io.renames| && io.renames[attempt] && temp in dirs {
          dirs := dirs - {temp} + {name};
          ok := true;
        } else {
          attempt := attempt + 1;
        }
      }
    }
  }
}
