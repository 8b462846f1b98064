/**
 * The asset registry of the engine: a process-wide list of loaded assets with
 * find-or-create keyed on (filename, owner), lookup by id, destruction of one
 * asset and of all of them.
 *
 * The registry is first specified on values (Registry, Lookup, FindOrLoad,
 * Unregister, Cleared, Count) and the properties the header documents are
 * proved about those functions; the class AssetManager then keeps the list as
 * a field and its methods are proved against the functions.
 */
module Assets {

  datatype Option<T> = None | Some(value: T)

  /**
   * The owner token: NULL when the caller gives none, otherwise an opaque
   * token standing for the caller's pointer. It is never dereferenced, only
   * compared; `OwnedBy(0)` is just another token, distinct from NULL.
   */
  datatype Owner = NoOwner | OwnedBy(address: nat)

  /** The concrete asset classes that go through the registry. */
  datatype Kind = Texture | Mesh | Shader

  /**
   * One registered asset. The id stands for the asset's identity (the
   * pointer the C++ code hands out): the registry never gives two assets the
   * same id, so two handles denote the same asset exactly when they are equal.
   */
  datatype Asset = Asset(id: nat, filename: string, owner: Owner, kind: Kind)

  /** The list of registered assets and the next id to issue. */
  datatype Registry = Registry(assets: seq<Asset>, nextId: nat)

  /** The new registry after an operation, with what the operation returned. */
  datatype Outcome<T> = Outcome(registry: Registry, result: T)

  /** GetAssetCount returns the list's size as a 32-bit unsigned integer. */
  const COUNT_MODULUS: nat := 0x1_0000_0000

  predicate HasKey(a: Asset, f: string, o: Owner) {
    a.filename == f && a.owner == o
  }

  /**
   * What the registry keeps true: every id is below the counter, no two
   * entries share an id, and no two entries share a (filename, owner) key.
   */
  predicate WellFormed(reg: Registry) {
    (forall i :: 0 <= i < |reg.assets| ==> reg.assets[i].id < reg.nextId)
    && (forall i, j :: 0 <= i < j < |reg.assets| ==> reg.assets[i].id != reg.assets[j].id)
    && (forall i, j :: 0 <= i < j < |reg.assets| ==>
          !HasKey(reg.assets[j], reg.assets[i].filename, reg.assets[i].owner))
  }

  /** Create<T> returns a hit as a T*, and the header shows no type check: a hit must be of the requested kind. */
  predicate KindAgrees(assets: seq<Asset>, k: Kind, f: string, o: Owner) {
    var hit := Lookup(assets, f, o);
    hit.Some? ==> hit.value.kind == k
  }

  // ---------------------------------------------------------------------------
  // Find

  /** Find(filename, owner): the first asset registered under that key, or NULL. */
  function Lookup(assets: seq<Asset>, f: string, o: Owner): (r: Option<Asset>)
    ensures r.Some? ==> r.value in assets && HasKey(r.value, f, o)
    ensures r.None? <==> forall a :: a in assets ==> !HasKey(a, f, o)
  {
    if |assets| == 0 then None
    else if HasKey(assets[0], f, o) then Some(assets[0])
    else Lookup(assets[1..], f, o)
  }

  /** Find(asset_id, owner): the first asset with that id and owner, or NULL. */
  function LookupById(assets: seq<Asset>, id: nat, o: Owner): (r: Option<Asset>)
    ensures r.Some? ==> r.value in assets && r.value.id == id && r.value.owner == o
    ensures r.None? <==> forall a :: a in assets ==> !(a.id == id && a.owner == o)
  {
    if |assets| == 0 then None
    else if assets[0].id == id && assets[0].owner == o then Some(assets[0])
    else LookupById(assets[1..], id, o)
  }

  /** In a valid registry the key determines the asset: Find returns the one registered under it. */
  lemma LookupUnique(reg: Registry, a: Asset)
    requires WellFormed(reg) && a in reg.assets
    ensures Lookup(reg.assets, a.filename, a.owner) == Some(a)
  {
    var b := Lookup(reg.assets, a.filename, a.owner).value;
    var i :| 0 <= i < |reg.assets| && reg.assets[i] == a;
    var j :| 0 <= j < |reg.assets| && reg.assets[j] == b;
  }

  /** In a valid registry the id determines the asset. */
  lemma LookupByIdUnique(reg: Registry, a: Asset)
    requires WellFormed(reg) && a in reg.assets
    ensures LookupById(reg.assets, a.id, a.owner) == Some(a)
  {
    var b := LookupById(reg.assets, a.id, a.owner).value;
    var i :| 0 <= i < |reg.assets| && reg.assets[i] == a;
    var j :| 0 <= j < |reg.assets| && reg.assets[j] == b;
  }

  /** Appending an asset under another key does not change what Find returns. */
  lemma {:induction false} LookupAppend(s: seq<Asset>, a: Asset, f: string, o: Owner)
    requires !HasKey(a, f, o)
    ensures Lookup(s + [a], f, o) == Lookup(s, f, o)
  {
    if |s| == 0 {
      assert s + [a] == [a];
    } else {
      assert (s + [a])[1..] == s[1..] + [a];
      LookupAppend(s[1..], a, f, o);
    }
  }

  /** Appending an asset does not change what Find by id returns for another id. */
  lemma {:induction false} LookupByIdAppend(s: seq<Asset>, a: Asset, id: nat, o: Owner)
    requires a.id != id
    ensures LookupById(s + [a], id, o) == LookupById(s, id, o)
  {
    if |s| == 0 {
      assert s + [a] == [a];
    } else {
      assert (s + [a])[1..] == s[1..] + [a];
      LookupByIdAppend(s[1..], a, id, o);
    }
  }

  // ---------------------------------------------------------------------------
  // Create

  /**
   * Create<T>(filename, owner): Find first; on a hit return that asset and
   * change nothing. On a miss the type's loader runs (`loads` is what it
   * reports): if it succeeds, a new asset with a fresh id is registered at the
   * end of the list and returned; if it fails, NULL is returned and nothing is
   * registered.
   */
  function FindOrLoad(reg: Registry, k: Kind, f: string, o: Owner, loads: bool): (res: Outcome<Option<Asset>>)
    ensures res.result.Some? ==> res.result.value in res.registry.assets && HasKey(res.result.value, f, o)
    ensures res.result.None? ==> res.registry == reg && !loads
    ensures KindAgrees(reg.assets, k, f, o) && res.result.Some? ==> res.result.value.kind == k
    ensures |reg.assets| <= |res.registry.assets| <= |reg.assets| + 1
    ensures res.registry.assets[..|reg.assets|] == reg.assets
  {
    match Lookup(reg.assets, f, o)
    case Some(a) => Outcome(reg, Some(a))
    case None =>
      if loads then
        var a := Asset(reg.nextId, f, o, k);
        Outcome(Registry(reg.assets + [a], reg.nextId + 1), Some(a))
      else
        Outcome(reg, None)
  }

  /** Create keeps the registry's invariant. */
  lemma CreateWellFormed(reg: Registry, k: Kind, f: string, o: Owner, loads: bool)
    requires WellFormed(reg)
    ensures WellFormed(FindOrLoad(reg, k, f, o, loads).registry)
  {
    if Lookup(reg.assets, f, o).None? && loads {
      var a := Asset(reg.nextId, f, o, k);
      var s := reg.assets + [a];
      forall i, j | 0 <= i < j < |s|
        ensures s[i].id != s[j].id && !HasKey(s[j], s[i].filename, s[i].owner)
      {
        if j == |s| - 1 {
          assert s[i] in reg.assets;
        }
      }
    }
  }

  /**
   * Dedup: when an asset is registered under (f, o), Create(f, o) returns that
   * very asset, registers nothing and does not run the loader (the result is
   * the same whatever the loader would report).
   */
  lemma CreateReturnsExisting(reg: Registry, a: Asset, k: Kind, loads: bool)
    requires WellFormed(reg) && a in reg.assets
    ensures FindOrLoad(reg, k, a.filename, a.owner, loads) == Outcome(reg, Some(a))
  {
    LookupUnique(reg, a);
  }

  /** Two successive Create(f, o) calls return the identical asset; the second changes nothing. */
  lemma CreateTwiceSame(reg: Registry, k: Kind, f: string, o: Owner, loads1: bool, loads2: bool)
    requires WellFormed(reg)
    requires FindOrLoad(reg, k, f, o, loads1).result.Some?
    ensures var first := FindOrLoad(reg, k, f, o, loads1);
            FindOrLoad(first.registry, k, f, o, loads2) == first
  {
    var first := FindOrLoad(reg, k, f, o, loads1);
    CreateWellFormed(reg, k, f, o, loads1);
    CreateReturnsExisting(first.registry, first.result.value, k, loads2);
  }

  /**
   * Owner isolation: with only (f, o1) registered, Create(f, o2) for another
   * owner loads a new asset, distinct from every registered one, the count
   * grows by one, and (f, o1) still finds its own copy.
   */
  lemma OwnerIsolation(reg: Registry, a: Asset, k: Kind, o2: Owner)
    requires WellFormed(reg) && a in reg.assets && a.owner != o2
    requires Lookup(reg.assets, a.filename, o2).None?
    ensures var c := FindOrLoad(reg, k, a.filename, o2, true);
            && c.result.Some?
            && c.result.value.owner == o2
            && c.result.value !in reg.assets
            && (forall b :: b in reg.assets ==> b.id != c.result.value.id)
            && |c.registry.assets| == |reg.assets| + 1
            && Lookup(c.registry.assets, a.filename, a.owner) == Some(a)
  {
    var c := FindOrLoad(reg, k, a.filename, o2, true);
    var loaded := Asset(reg.nextId, a.filename, o2, k);
    assert c.registry.assets == reg.assets + [loaded];
    LookupUnique(reg, a);
    LookupAppend(reg.assets, loaded, a.filename, a.owner);
  }

  /** Create under one key leaves what Find returns for every other key as it was. */
  lemma CreatePreservesOtherKeys(reg: Registry, k: Kind, f: string, o: Owner, loads: bool,
                                 f': string, o': Owner)
    requires (f', o') != (f, o)
    ensures Lookup(FindOrLoad(reg, k, f, o, loads).registry.assets, f', o') == Lookup(reg.assets, f', o')
  {
    if Lookup(reg.assets, f, o).None? && loads {
      LookupAppend(reg.assets, Asset(reg.nextId, f, o, k), f', o');
    }
  }

  /** Create leaves what Find by id returns for every id issued before as it was. */
  lemma CreatePreservesIssuedIds(reg: Registry, k: Kind, f: string, o: Owner, loads: bool,
                                 id: nat, o': Owner)
    requires id < reg.nextId
    ensures LookupById(FindOrLoad(reg, k, f, o, loads).registry.assets, id, o') == LookupById(reg.assets, id, o')
  {
    if Lookup(reg.assets, f, o).None? && loads {
      LookupByIdAppend(reg.assets, Asset(reg.nextId, f, o, k), id, o');
    }
  }

  /**
   * A failed load leaves no trace, and failures are not cached: the next
   * Create for the same key runs the loader again and, if it now succeeds,
   * registers the asset.
   */
  lemma FailedLoadIsRetried(reg: Registry, k: Kind, f: string, o: Owner)
    requires Lookup(reg.assets, f, o).None?
    ensures FindOrLoad(reg, k, f, o, false) == Outcome(reg, None)
    ensures var c := FindOrLoad(FindOrLoad(reg, k, f, o, false).registry, k, f, o, true);
            c.result == Some(Asset(reg.nextId, f, o, k)) && |c.registry.assets| == |reg.assets| + 1
  {
  }

  // ---------------------------------------------------------------------------
  // Destroy

  /** The list without the first occurrence of p (the vector erase of the found entry). */
  function RemoveFirst(s: seq<Asset>, p: Asset): (r: seq<Asset>)
    ensures p in s ==> |r| == |s| - 1 && multiset(r) == multiset(s) - multiset{p}
    ensures p !in s ==> r == s
  {
    if |s| == 0 then []
    else
      assert s == [s[0]] + s[1..];
      if s[0] == p then s[1..]
      else [s[0]] + RemoveFirst(s[1..], p)
  }

  /** Removing the first occurrence found by a scan at index i is splicing out s[i]. */
  lemma {:induction false} RemoveFirstAt(s: seq<Asset>, p: Asset, i: nat)
    requires i < |s| && s[i] == p && p !in s[..i]
    ensures RemoveFirst(s, p) == s[..i] + s[i + 1..]
  {
    if i > 0 {
      assert s[1..][..i - 1] == s[1..i];
      assert p !in s[1..][..i - 1];
      RemoveFirstAt(s[1..], p, i - 1);
      assert s[..i] == [s[0]] + s[1..i];
      assert s[1..][i..] == s[i + 1..];
    }
  }

  /** Removing an asset under another key does not change what Find returns. */
  lemma {:induction false} LookupRemoveOther(s: seq<Asset>, p: Asset, f: string, o: Owner)
    requires !HasKey(p, f, o)
    ensures Lookup(RemoveFirst(s, p), f, o) == Lookup(s, f, o)
  {
    if |s| > 0 && s[0] != p {
      LookupRemoveOther(s[1..], p, f, o);
      assert ([s[0]] + RemoveFirst(s[1..], p))[1..] == RemoveFirst(s[1..], p);
    }
  }

  /**
   * Destroy<T>(asset): TRUE when the asset is registered, and then exactly its
   * entry is erased; FALSE (a NULL handle or an unregistered asset) otherwise,
   * with nothing changed.
   */
  function Unregister(reg: Registry, p: Option<Asset>): (res: Outcome<bool>)
    ensures res.result <==> p.Some? && p.value in reg.assets
    ensures res.result ==> |res.registry.assets| == |reg.assets| - 1
    ensures !res.result ==> res.registry == reg
    ensures res.registry.nextId == reg.nextId
  {
    if p.Some? && p.value in reg.assets then
      Outcome(Registry(RemoveFirst(reg.assets, p.value), reg.nextId), true)
    else
      Outcome(reg, false)
  }

  /** Splicing one entry out of a valid registry leaves it valid. */
  lemma SpliceWellFormed(reg: Registry, i: nat)
    requires WellFormed(reg) && i < |reg.assets|
    ensures WellFormed(Registry(reg.assets[..i] + reg.assets[i + 1..], reg.nextId))
  {
    var s := reg.assets;
    var t := s[..i] + s[i + 1..];
    assert |t| == |s| - 1;
    assert forall k :: 0 <= k < |t| ==> t[k] == s[if k < i then k else k + 1];
    forall k, m | 0 <= k < m < |t|
      ensures t[k].id != t[m].id && !HasKey(t[m], t[k].filename, t[k].owner)
    {
      var k', m' := if k < i then k else k + 1, if m < i then m else m + 1;
      assert k' < m' && t[k] == s[k'] && t[m] == s[m'];
    }
  }

  /** Destroy keeps the registry's invariant. */
  lemma DestroyWellFormed(reg: Registry, p: Option<Asset>)
    requires WellFormed(reg)
    ensures WellFormed(Unregister(reg, p).registry)
  {
    if p.Some? && p.value in reg.assets {
      var i := FirstOccurrence(reg.assets, p.value);
      RemoveFirstAt(reg.assets, p.value, i);
      SpliceWellFormed(reg, i);
    }
  }

  /** A scan from the front meets the first occurrence of every registered asset. */
  lemma {:induction false} FirstOccurrence(s: seq<Asset>, p: Asset) returns (i: nat)
    requires p in s
    ensures i < |s| && s[i] == p && p !in s[..i]
  {
    if s[0] == p {
      i := 0;
    } else {
      var j := FirstOccurrence(s[1..], p);
      i := j + 1;
      assert s[..i] == [s[0]] + s[1..][..j];
    }
  }

  /**
   * Destroy removes exactly one entry: the count drops by one, the asset can
   * be found neither by key nor by id, every other asset is still registered,
   * and every other key (in particular another owner's copy of the same file)
   * finds what it found before.
   */
  lemma DestroyRemovesExactlyOne(reg: Registry, p: Asset)
    requires WellFormed(reg) && p in reg.assets
    ensures var d := Unregister(reg, Some(p));
            && d.result
            && |d.registry.assets| == |reg.assets| - 1
            && multiset(d.registry.assets) == multiset(reg.assets) - multiset{p}
            && Lookup(d.registry.assets, p.filename, p.owner).None?
            && LookupById(d.registry.assets, p.id, p.owner).None?
            && (forall a :: a in reg.assets && a != p ==> a in d.registry.assets)
            && (forall f, o :: (f, o) != (p.filename, p.owner) ==>
                  Lookup(d.registry.assets, f, o) == Lookup(reg.assets, f, o))
  {
    var d := Unregister(reg, Some(p));
    DestroyWellFormed(reg, Some(p));
    var t := d.registry.assets;
    assert p !in t by {
      var i := FirstOccurrence(reg.assets, p);
      RemoveFirstAt(reg.assets, p, i);
      var s := reg.assets;
      forall k | 0 <= k < |t| ensures t[k] != p {
        if k < i {
          assert s[k].id != s[i].id;
        } else {
          assert s[i].id != s[k + 1].id;
        }
      }
    }
    forall a | a in reg.assets && a != p ensures a in t {
      assert a in multiset(reg.assets);
      assert a in multiset(t);
    }
    forall a | a in t ensures !HasKey(a, p.filename, p.owner) && !(a.id == p.id && a.owner == p.owner) {
      assert a in multiset(t);
      assert a in reg.assets;
      LookupUnique(reg, a);
      LookupUnique(reg, p);
      LookupByIdUnique(reg, a);
      LookupByIdUnique(reg, p);
    }
    forall f, o | (f, o) != (p.filename, p.owner)
      ensures Lookup(t, f, o) == Lookup(reg.assets, f, o)
    {
      LookupRemoveOther(reg.assets, p, f, o);
    }
  }

  // ---------------------------------------------------------------------------
  // DestroyAll and GetAssetCount

  /**
   * DestroyAll: every asset is released and the list is emptied. The id
   * counter is kept, so ids handed out before are never issued again.
   */
  function Cleared(reg: Registry): (r: Registry)
    ensures WellFormed(r) && Count(r) == 0
    ensures forall f, o :: Lookup(r.assets, f, o).None?
    ensures forall id, o :: LookupById(r.assets, id, o).None?
    ensures r.nextId == reg.nextId
  {
    Registry([], reg.nextId)
  }

  /** GetAssetCount: the list's size, truncated to 32 bits. */
  function Count(reg: Registry): (n: nat)
    ensures n < COUNT_MODULUS
    ensures |reg.assets| < COUNT_MODULUS ==> n == |reg.assets|
  {
    |reg.assets| % COUNT_MODULUS
  }

  /** DestroyAll is idempotent, and the count is 0 after it. */
  lemma DestroyAllIdempotent(reg: Registry)
    ensures Cleared(Cleared(reg)) == Cleared(reg)
    ensures Count(Cleared(reg)) == 0
  {
  }

  // ---------------------------------------------------------------------------
  // An end-to-end scenario with two owners of one file

  /**
   * Create(f, A) returns H1; Create(f, A) again returns H1; Create(f, B)
   * returns H2 != H1; Destroy(H1) succeeds; then Find(f, A) is NULL and
   * Find(f, B) is still H2.
   */
  lemma TwoOwnersScenario(reg: Registry, k: Kind, f: string, ownerA: Owner, ownerB: Owner, loads2: bool)
    requires WellFormed(reg) && ownerA != ownerB
    requires Lookup(reg.assets, f, ownerA).None? && Lookup(reg.assets, f, ownerB).None?
    ensures var c1 := FindOrLoad(reg, k, f, ownerA, true);
            var c2 := FindOrLoad(c1.registry, k, f, ownerA, loads2);
            var c3 := FindOrLoad(c2.registry, k, f, ownerB, true);
            var d := Unregister(c3.registry, c1.result);
            && c1.result.Some?
            && c2.result == c1.result
            && c3.result.Some? && c3.result != c1.result
            && d.result
            && Lookup(d.registry.assets, f, ownerA).None?
            && Lookup(d.registry.assets, f, ownerB) == c3.result
  {
    var c1 := FindOrLoad(reg, k, f, ownerA, true);
    var h1 := c1.result.value;
    CreateTwiceSame(reg, k, f, ownerA, true, loads2);
    assert FindOrLoad(c1.registry, k, f, ownerA, loads2) == c1;
    CreateWellFormed(reg, k, f, ownerA, true);
    CreatePreservesOtherKeys(reg, k, f, ownerA, true, f, ownerB);
    assert Lookup(c1.registry.assets, f, ownerB).None?;
    OwnerIsolation(c1.registry, h1, k, ownerB);
    var c3 := FindOrLoad(c1.registry, k, f, ownerB, true);
    var h2 := c3.result.value;
    assert h2 != h1;
    CreateWellFormed(c1.registry, k, f, ownerB, true);
    assert h1 in c3.registry.assets;
    DestroyRemovesExactlyOne(c3.registry, h1);
    var d := Unregister(c3.registry, Some(h1));
    assert Lookup(d.registry.assets, f, ownerB) == Lookup(c3.registry.assets, f, ownerB);
    LookupUnique(c3.registry, h2);
  }

  // ---------------------------------------------------------------------------
  // The registry object

  /**
   * CAssetManager: the single registry object. The static vector of the C++
   * class becomes the field `assets`; every operation is proved against the
   * functions above.
   */
  class AssetManager {
    var assets: seq<Asset>
    var nextId: nat

    function State(): Registry
      reads this
    {
      Registry(assets, nextId)
    }

    predicate Valid()
      reads this
    {
      WellFormed(State())
    }

    constructor ()
      ensures Valid() && assets == [] && nextId == 0
    {
      assets := [];
      nextId := 0;
    }

    /** Find(filename, owner): a read-only scan of the list; never loads or registers anything. */
    method Find(f: string, o: Owner) returns (r: Option<Asset>)
      ensures r == Lookup(assets, f, o)
    {
      var i := 0;
      while i < |assets|
        invariant 0 <= i <= |assets|
        invariant Lookup(assets[i..], f, o) == Lookup(assets, f, o)
      {
        if HasKey(assets[i], f, o) {
          return Some(assets[i]);
        }
        assert assets[i..][1..] == assets[i + 1..];
        i := i + 1;
      }
      return None;
    }

    /** Find(asset_id, owner): a read-only scan of the list by id. */
    method FindById(id: nat, o: Owner) returns (r: Option<Asset>)
      ensures r == LookupById(assets, id, o)
    {
      var i := 0;
      while i < |assets|
        invariant 0 <= i <= |assets|
        invariant LookupById(assets[i..], id, o) == LookupById(assets, id, o)
      {
        if assets[i].id == id && assets[i].owner == o {
          return Some(assets[i]);
        }
        assert assets[i..][1..] == assets[i + 1..];
        i := i + 1;
      }
      return None;
    }

    /**
     * Create<T>(filename, owner); `loads` is what T's loader reports, and it
     * is consulted only on a miss. A hit must be of kind k: it is returned as
     * a T*, and the header shows no type check.
     */
    method Create(k: Kind, f: string, o: Owner, loads: bool) returns (r: Option<Asset>)
      requires Valid() && KindAgrees(assets, k, f, o)
      modifies this
      ensures Valid()
      ensures Outcome(State(), r) == FindOrLoad(old(State()), k, f, o, loads)
      ensures r.Some? ==> r.value.kind == k
    {
      CreateWellFormed(State(), k, f, o, loads);
      r := Find(f, o);
      if r.None? && loads {
        var a := Asset(nextId, f, o, k);
        assets := assets + [a];
        nextId := nextId + 1;
        r := Some(a);
      }
    }

    /** Destroy<T>(asset): scans for the asset and erases its entry. */
    method Destroy(p: Option<Asset>) returns (found: bool)
      requires Valid()
      modifies this
      ensures Valid()
      ensures Outcome(State(), found) == Unregister(old(State()), p)
    {
      DestroyWellFormed(State(), p);
      if p.None? {
        return false;
      }
      var target := p.value;
      var i := 0;
      while i < |assets| && assets[i] != target
        invariant 0 <= i <= |assets|
        invariant target !in assets[..i]
      {
        i := i + 1;
      }
      if i == |assets| {
        assert assets[..i] == assets;
        return false;
      }
      RemoveFirstAt(assets, target, i);
      assets := assets[..i] + assets[i + 1..];
      found := true;
    }

    /** DestroyAll: releases every asset and empties the list. */
    method DestroyAll()
      requires Valid()
      modifies this
      ensures Valid()
      ensures State() == Cleared(old(State()))
    {
      assets := [];
    }

    /** GetAssetCount: the number of registered assets as a uint32_t. */
    method GetAssetCount() returns (n: nat)
      ensures n < COUNT_MODULUS
      ensures n == Count(State())
    {
      n := Count(State());
    }
  }
}
