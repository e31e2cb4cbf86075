/** File trees, and what creating, writing and unlinking one path does to every other path. */
module WfsTree {
  import opened Wrappers
  import opened Blocks

  datatype Dent = Dent(name: string, ino: nat)

  datatype Body = Dir(dents: seq<Dent>) | File(bytes: seq<Byte>)

  type Tree = map<nat, Body>

  /** The components between the slashes. */
  type Path = seq<string>

  /** The first entry of that name. */
  function Find(ds: seq<Dent>, name: string): (r: Option<nat>)
    ensures r.Some? ==> r.value < |ds| && ds[r.value].name == name
    ensures r.None? ==> forall k :: 0 <= k < |ds| ==> ds[k].name != name
  {
    if ds == [] then None
    else if ds[0].name == name then Some(0)
    else
      match Find(ds[1..], name)
      case None => None
      case Some(k) => Some(k + 1)
  }

  /** Entry k of directory d. */
  predicate Link(t: Tree, d: nat, k: nat) {
    d in t && t[d].Dir? && k < |t[d].dents|
  }

  function LinkOf(t: Tree, d: nat, k: nat): Dent
    requires Link(t, d, k)
  {
    t[d].dents[k]
  }

  /** One step of a path. */
  function Child(t: Tree, d: nat, name: string): Option<nat> {
    if d in t && t[d].Dir? then
      match Find(t[d].dents, name)
      case None => None
      case Some(k) => if t[d].dents[k].ino in t then Some(t[d].dents[k].ino) else None
    else None
  }

  function Resolve(t: Tree, p: Path): Option<nat> {
    if p == [] then (if 0 in t then Some(0) else None)
    else
      match Resolve(t, p[..|p| - 1])
      case None => None
      case Some(d) => Child(t, d, p[|p| - 1])
  }

  /** Names in a directory are distinct, entries lead to live inodes, and no inode but the root's has two entries. */
  ghost predicate TreeOk(t: Tree) {
    && 0 in t && t[0].Dir?
    && (forall d, k :: Link(t, d, k) ==> LinkOf(t, d, k).ino in t && LinkOf(t, d, k).ino != 0)
    && (forall d, k, l :: Link(t, d, k) && Link(t, d, l) && LinkOf(t, d, k).name == LinkOf(t, d, l).name ==> k == l)
    && (forall d, k, e, l :: Link(t, d, k) && Link(t, e, l) && LinkOf(t, d, k).ino == LinkOf(t, e, l).ino ==>
      d == e && k == l)
  }

  lemma ChildLink(t: Tree, d: nat, name: string) returns (k: nat)
    requires Child(t, d, name).Some?
    ensures Link(t, d, k) && LinkOf(t, d, k).name == name && LinkOf(t, d, k).ino == Child(t, d, name).value
  {
    k := Find(t[d].dents, name).value;
  }

  /** A tree: no two paths lead to the same inode. */
  lemma {:induction false} PathsUnique(t: Tree, p: Path, q: Path)
    requires TreeOk(t) && Resolve(t, p).Some? && Resolve(t, p) == Resolve(t, q)
    ensures p == q
    decreases |p|
  {
    if p != [] && q != [] {
      var p', q' := p[..|p| - 1], q[..|q| - 1];
      var k := ChildLink(t, Resolve(t, p').value, p[|p| - 1]);
      var l := ChildLink(t, Resolve(t, q').value, q[|q| - 1]);
      PathsUnique(t, p', q');
      assert p == p' + [p[|p| - 1]] && q == q' + [q[|q| - 1]];
    } else if p != [] {
      var k := ChildLink(t, Resolve(t, p[..|p| - 1]).value, p[|p| - 1]);
    } else if q != [] {
      var k := ChildLink(t, Resolve(t, q[..|q| - 1]).value, q[|q| - 1]);
    }
  }

  // ---------- creating ----------

  function Created(t: Tree, d: nat, name: string, i: nat, body: Body): Tree
    requires d in t && t[d].Dir?
  {
    t[d := Dir(t[d].dents + [Dent(name, i)])][i := body]
  }

  predicate Blank(body: Body) {
    body == Dir([]) || body == File([])
  }

  lemma {:induction false} FindSnoc(ds: seq<Dent>, e: Dent, name: string)
    ensures Find(ds + [e], name) ==
            if Find(ds, name).Some? then Find(ds, name) else if e.name == name then Some(|ds|) else None
    decreases |ds|
  {
    if ds != [] {
      assert (ds + [e])[1..] == ds[1..] + [e];
      FindSnoc(ds[1..], e, name);
    }
  }

  /** The new entry is all that a single step of a path can notice. */
  lemma CreateChild(t: Tree, d: nat, name: string, i: nat, body: Body, e: nat, m: string)
    requires TreeOk(t) && d in t && t[d].Dir? && Find(t[d].dents, name) == None && i !in t && Blank(body)
    ensures Child(Created(t, d, name, i, body), e, m) ==
            if e == d && m == name then Some(i) else if e == i then None else Child(t, e, m)
  {
    if e == d {
      FindSnoc(t[d].dents, Dent(name, i), m);
    }
    if e != i && Child(t, e, m).Some? {
      var k := ChildLink(t, e, m);
    }
    if e in t && t[e].Dir? && Find(t[e].dents, m).Some? {
      assert Link(t, e, Find(t[e].dents, m).value);
    }
  }

  lemma {:induction false} CreatePaths(t: Tree, p: Path, d: nat, name: string, i: nat, body: Body, q: Path)
    requires TreeOk(t) && Resolve(t, p) == Some(d) && d in t && t[d].Dir? && Find(t[d].dents, name) == None &&
             i !in t && Blank(body)
    ensures Resolve(Created(t, d, name, i, body), q) == if q == p + [name] then Some(i) else Resolve(t, q)
    decreases |q|
  {
    if q != [] {
      var q', m := q[..|q| - 1], q[|q| - 1];
      assert q == q' + [m];
      CreatePaths(t, p, d, name, i, body, q');
      if q' == p + [name] {
        assert q'[..|q'| - 1] == p && q'[|q'| - 1] == name;
        assert Resolve(t, q') == None;
        CreateChild(t, d, name, i, body, i, m);
      } else if Resolve(t, q').Some? {
        var e := Resolve(t, q').value;
        Live(t, q');
        CreateChild(t, d, name, i, body, e, m);
        if e == d {
          PathsUnique(t, p, q');
        } else {
          assert q' != p;
        }
      }
    }
  }

  lemma Live(t: Tree, p: Path)
    requires Resolve(t, p).Some?
    ensures Resolve(t, p).value in t
  {
  }

  /** Creating keeps a tree exactly when the name is new: with a name that exists there are two entries for one path. */
  lemma CreateOkExactly(t: Tree, d: nat, name: string, i: nat, body: Body)
    requires TreeOk(t) && d in t && t[d].Dir? && i !in t && Blank(body)
    ensures TreeOk(Created(t, d, name, i, body)) <==> Find(t[d].dents, name) == None
  {
    var t' := Created(t, d, name, i, body);
    var n := |t[d].dents|;
    assert forall e, k :: Link(t', e, k) ==>
             if e == d && k == n then LinkOf(t', e, k) == Dent(name, i)
             else Link(t, e, k) && LinkOf(t', e, k) == LinkOf(t, e, k);
    if Find(t[d].dents, name).Some? {
      var k := Find(t[d].dents, name).value;
      assert Link(t', d, k) && Link(t', d, n) && LinkOf(t', d, k).name == LinkOf(t', d, n).name;
    } else {
      forall e: nat, k: nat, l: nat | Link(t', e, k) && Link(t', e, l) && LinkOf(t', e, k).name == LinkOf(t', e, l).name
        ensures k == l
      {
        assert e == d && k < n ==> LinkOf(t, d, k).name != name;
        assert e == d && l < n ==> LinkOf(t, d, l).name != name;
      }
    }
  }

  /** A name that exists keeps leading to the old inode; no path leads to the new one. */
  lemma CreateTwice(t: Tree, p: Path, d: nat, name: string, i: nat, body: Body)
    requires TreeOk(t) && Resolve(t, p) == Some(d) && d in t && t[d].Dir? && Find(t[d].dents, name).Some? && i !in t &&
             Blank(body)
    ensures Child(Created(t, d, name, i, body), d, name) == Child(t, d, name) != Some(i)
  {
    FindSnoc(t[d].dents, Dent(name, i), name);
    assert Link(t, d, Find(t[d].dents, name).value);
  }

  // ---------- writing ----------

  lemma {:induction false} WritePaths(t: Tree, i: nat, bytes: seq<Byte>, q: Path)
    requires i in t && t[i].File?
    ensures Resolve(t[i := File(bytes)], q) == Resolve(t, q)
    decreases |q|
  {
    if q != [] {
      WritePaths(t, i, bytes, q[..|q| - 1]);
    }
  }

  lemma WriteOk(t: Tree, i: nat, bytes: seq<Byte>)
    requires TreeOk(t) && i in t && t[i].File?
    ensures TreeOk(t[i := File(bytes)])
  {
    var t' := t[i := File(bytes)];
    assert forall e, k :: Link(t', e, k) ==> Link(t, e, k) && LinkOf(t', e, k) == LinkOf(t, e, k);
  }

  // ---------- unlinking ----------

  function Removed(ds: seq<Dent>, name: string): (r: seq<Dent>)
    ensures |r| <= |ds|
  {
    if ds == [] then [] else (if ds[0].name == name then [] else [ds[0]]) + Removed(ds[1..], name)
  }

  function Unlinked(t: Tree, d: nat, name: string, i: nat): Tree
    requires d in t && t[d].Dir?
  {
    t[d := Dir(Removed(t[d].dents, name))] - {i}
  }

  /** A name that occurs once. */
  predicate Once(ds: seq<Dent>, k: nat, name: string) {
    k < |ds| && forall j :: 0 <= j < |ds| ==> (ds[j].name == name <==> j == k)
  }

  lemma {:induction false} RemovedNone(ds: seq<Dent>, name: string)
    requires forall j :: 0 <= j < |ds| ==> ds[j].name != name
    ensures Removed(ds, name) == ds
    decreases |ds|
  {
    if ds != [] {
      RemovedNone(ds[1..], name);
    }
  }

  /** Removing it takes away exactly that entry. */
  lemma {:induction false} RemovedOnce(ds: seq<Dent>, k: nat, name: string)
    requires Once(ds, k, name)
    ensures Removed(ds, name) == ds[..k] + ds[k + 1..]
    decreases |ds|
  {
    if k == 0 {
      RemovedNone(ds[1..], name);
    } else {
      RemovedOnce(ds[1..], k - 1, name);
      assert ds == [ds[0]] + ds[1..];
    }
  }

  lemma {:induction false} RemovedFind(ds: seq<Dent>, name: string, m: string)
    ensures m == name ==> Find(Removed(ds, name), m) == None
    ensures m != name ==> (Find(Removed(ds, name), m).Some? <==> Find(ds, m).Some?)
    ensures m != name && Find(ds, m).Some? ==>
            Removed(ds, name)[Find(Removed(ds, name), m).value] == ds[Find(ds, m).value]
    decreases |ds|
  {
    if ds != [] {
      RemovedFind(ds[1..], name, m);
      if ds[0].name != name {
        assert Removed(ds, name)[1..] == Removed(ds[1..], name);
      } else {
        assert Removed(ds, name) == Removed(ds[1..], name);
      }
    }
  }

  lemma UnlinkChild(t: Tree, d: nat, name: string, e: nat, m: string)
    requires TreeOk(t) && d in t && Child(t, d, name).Some? && e != Child(t, d, name).value &&
             d != Child(t, d, name).value
    ensures Child(Unlinked(t, d, name, Child(t, d, name).value), e, m) ==
            if e == d && m == name then None else Child(t, e, m)
  {
    var i := Child(t, d, name).value;
    var k := ChildLink(t, d, name);
    if e == d {
      RemovedFind(t[d].dents, name, m);
    }
    if Child(t, e, m).Some? {
      var l := ChildLink(t, e, m);
    }
  }

  /** The path and everything below it are gone; every other path leads where it did. */
  lemma {:induction false} UnlinkPaths(t: Tree, p: Path, d: nat, name: string, q: Path)
    requires TreeOk(t) && Resolve(t, p) == Some(d) && Child(t, d, name).Some?
    ensures Resolve(Unlinked(t, d, name, Child(t, d, name).value), q) == if p + [name] <= q then None else Resolve(t, q)
    decreases |q|
  {
    var i := Child(t, d, name).value;
    var full := p + [name];
    assert full[..|full| - 1] == p;
    assert Resolve(t, full) == Some(i);
    var k := ChildLink(t, d, name);
    if d == i {
      PathsUnique(t, p, full);
    }
    if q != [] {
      var q', m := q[..|q| - 1], q[|q| - 1];
      assert q == q' + [m];
      UnlinkPaths(t, p, d, name, q');
      if !(full <= q') && Resolve(t, q').Some? {
        var e := Resolve(t, q').value;
        if e == i {
          PathsUnique(t, full, q');
          assert false;
        }
        UnlinkChild(t, d, name, e, m);
        if e == d {
          PathsUnique(t, p, q');
        }
        if full <= q {
          assert q == full && q' == p;
        }
        if e == d && m == name {
          assert q == full;
        }
      }
    }
  }

  lemma OnlyName(t: Tree, d: nat, name: string) returns (k: nat)
    requires TreeOk(t) && Child(t, d, name).Some?
    ensures Once(t[d].dents, k, name) && t[d].dents[k].ino == Child(t, d, name).value
    ensures Removed(t[d].dents, name) == t[d].dents[..k] + t[d].dents[k + 1..]
  {
    k := ChildLink(t, d, name);
    forall j: nat | j < |t[d].dents|
      ensures t[d].dents[j].name == name <==> j == k
    {
      assert Link(t, d, j) && LinkOf(t, d, j) == t[d].dents[j];
    }
    RemovedOnce(t[d].dents, k, name);
  }

  lemma UnlinkOk(t: Tree, p: Path, d: nat, name: string)
    requires TreeOk(t) && Resolve(t, p) == Some(d) && Child(t, d, name).Some?
    ensures TreeOk(Unlinked(t, d, name, Child(t, d, name).value))
  {
    var i := Child(t, d, name).value;
    var t' := Unlinked(t, d, name, i);
    var k0 := OnlyName(t, d, name);
    assert Link(t, d, k0);
    var full := p + [name];
    assert full[..|full| - 1] == p;
    if d == i {
      PathsUnique(t, p, full);
    }
    forall e: nat, k: nat | Link(t', e, k)
      ensures Link(t, e, Origin(d, k0, e, k)) && LinkOf(t', e, k) == LinkOf(t, e, Origin(d, k0, e, k)) &&
              (e != d || Origin(d, k0, e, k) != k0)
    {
    }
  }

  /** Where entry k of directory e was before entry k0 of directory d went. */
  function Origin(d: nat, k0: nat, e: nat, k: nat): nat {
    if e == d && k >= k0 then k + 1 else k
  }
}
