/**
 * CAnimation: an entity that cycles through a queue of textures. Textures are
 * obtained from the asset registry by filename under the default owner and
 * appended to the queue; a cursor into the queue selects the active texture
 * and is stepped forwards and backwards with wrap-around.
 */
module Animations {
  import opened Assets

  /**
   * One NextSprite step on a queue of n textures at position i: the new
   * position, and true when it moved on, false when it looped to the start.
   */
  function Next(i: nat, n: nat): (r: (nat, bool))
    requires i < n
    ensures r.0 < n
    ensures r.1 <==> i + 1 < n
    ensures r.1 ==> r.0 == i + 1
    ensures !r.1 ==> r.0 == 0
  {
    if i + 1 < n then (i + 1, true) else (0, false)
  }

  /**
   * One PrevSprite step: the new position, and true when it moved back, false
   * when it looped to the end.
   */
  function Prev(i: nat, n: nat): (r: (nat, bool))
    requires i < n
    ensures r.0 < n
    ensures r.1 <==> 0 < i
    ensures r.1 ==> r.0 + 1 == i
    ensures !r.1 ==> r.0 == n - 1
  {
    if i > 0 then (i - 1, true) else (n - 1, false)
  }

  /** PrevSprite undoes NextSprite and the other way round, and both report a loop together. */
  lemma NextPrevInverse(i: nat, n: nat)
    requires i < n
    ensures Prev(Next(i, n).0, n).0 == i && Prev(Next(i, n).0, n).1 == Next(i, n).1
    ensures Next(Prev(i, n).0, n).0 == i && Next(Prev(i, n).0, n).1 == Prev(i, n).1
  {
  }

  /** The position after k NextSprite calls, and how many of them reported a loop. */
  function Forward(i: nat, n: nat, k: nat): (r: (nat, nat))
    requires i < n
    ensures r.0 < n && r.1 <= k
    decreases k
  {
    if k == 0 then (i, 0)
    else
      var step := Next(i, n);
      var rest := Forward(step.0, n, k - 1);
      (rest.0, rest.1 + if step.1 then 0 else 1)
  }

  /** The position after k PrevSprite calls, and how many of them reported a loop. */
  function Backward(i: nat, n: nat, k: nat): (r: (nat, nat))
    requires i < n
    ensures r.0 < n && r.1 <= k
    decreases k
  {
    if k == 0 then (i, 0)
    else
      var step := Prev(i, n);
      var rest := Backward(step.0, n, k - 1);
      (rest.0, rest.1 + if step.1 then 0 else 1)
  }

  /** Until the end of the queue, NextSprite calls walk forward one texture each and never loop. */
  lemma {:induction false} ForwardWithin(i: nat, n: nat, k: nat)
    requires i + k < n
    ensures Forward(i, n, k) == (i + k, 0)
    decreases k
  {
    if k > 0 {
      ForwardWithin(i + 1, n, k - 1);
    }
  }

  /** Until the start of the queue, PrevSprite calls walk back one texture each and never loop. */
  lemma {:induction false} BackwardWithin(i: nat, n: nat, k: nat)
    requires k <= i < n
    ensures Backward(i, n, k) == (i - k, 0)
    decreases k
  {
    if k > 0 {
      BackwardWithin(i - 1, n, k - 1);
    }
  }

  /** a + b NextSprite calls are a calls followed by b calls; the loop reports add up. */
  lemma {:induction false} ForwardCompose(i: nat, n: nat, a: nat, b: nat)
    requires i < n
    ensures var first := Forward(i, n, a);
            var second := Forward(first.0, n, b);
            Forward(i, n, a + b) == (second.0, first.1 + second.1)
    decreases a
  {
    if a > 0 {
      ForwardCompose(Next(i, n).0, n, a - 1, b);
      assert a + b - 1 == (a - 1) + b;
    }
  }

  /** a + b PrevSprite calls are a calls followed by b calls; the loop reports add up. */
  lemma {:induction false} BackwardCompose(i: nat, n: nat, a: nat, b: nat)
    requires i < n
    ensures var first := Backward(i, n, a);
            var second := Backward(first.0, n, b);
            Backward(i, n, a + b) == (second.0, first.1 + second.1)
    decreases a
  {
    if a > 0 {
      BackwardCompose(Prev(i, n).0, n, a - 1, b);
      assert a + b - 1 == (a - 1) + b;
    }
  }

  /** How many NextSprite calls take the cursor from position i to position k. */
  function Distance(i: nat, k: nat, n: nat): (d: nat)
    requires i < n && k < n
    ensures d < n
  {
    if i <= k then k - i else n - i + k
  }

  /**
   * The sprite cursor is cyclic: n NextSprite calls bring it back to where it
   * started with exactly one loop reported.
   */
  lemma ForwardFullTurn(i: nat, n: nat)
    requires i < n
    ensures Forward(i, n, n) == (i, 1)
  {
    ForwardWithin(i, n, n - 1 - i);
    ForwardCompose(i, n, n - 1 - i, 1);
    ForwardWithin(0, n, i);
    ForwardCompose(i, n, n - i, i);
  }

  /** n PrevSprite calls bring the cursor back to where it started with exactly one loop reported. */
  lemma BackwardFullTurn(i: nat, n: nat)
    requires i < n
    ensures Backward(i, n, n) == (i, 1)
  {
    BackwardWithin(i, n, i);
    BackwardCompose(i, n, i, 1);
    BackwardWithin(n - 1, n, n - 1 - i);
    BackwardCompose(i, n, i + 1, n - 1 - i);
  }

  /** Within one turn, NextSprite reaches every texture of the queue. */
  lemma ForwardVisitsAll(i: nat, n: nat)
    requires i < n
    ensures forall k :: 0 <= k < n ==> Forward(i, n, Distance(i, k, n)).0 == k
  {
    forall k | 0 <= k < n
      ensures Forward(i, n, Distance(i, k, n)).0 == k
    {
      if i <= k {
        ForwardWithin(i, n, k - i);
      } else {
        ForwardWithin(i, n, n - 1 - i);
        ForwardCompose(i, n, n - 1 - i, 1);
        ForwardWithin(0, n, k);
        ForwardCompose(i, n, n - i, k);
      }
    }
  }

  class Animation {
    /** mp_allTextures: the queue of textures. */
    var textures: seq<Asset>
    /** The position of the active texture in the queue. */
    var cursor: nat
    /** mp_ActiveTexture; None is the NULL pointer. */
    var activeTexture: Option<Asset>
    /** m_enabled. */
    var enabled: bool

    /**
     * Every queued asset is a texture; the cursor is inside the queue (0 when
     * it is empty); an active texture is the one under the cursor.
     */
    predicate Valid()
      reads this
    {
      (forall t :: t in textures ==> t.kind == Texture)
      && (if |textures| == 0 then cursor == 0 else cursor < |textures|)
      && (activeTexture.Some? ==> cursor < |textures| && activeTexture.value == textures[cursor])
    }

    constructor ()
      ensures Valid() && textures == [] && cursor == 0 && activeTexture == None && !enabled
    {
      textures := [];
      cursor := 0;
      activeTexture := None;
      enabled := false;
    }

    /** GetTexture: the active texture, which is one of the queued textures. */
    function GetTexture(): (t: Option<Asset>)
      requires Valid()
      reads this
      ensures t.Some? ==> t.value in textures && t.value.kind == Texture
      ensures t.Some? ==> t.value == textures[cursor]
    {
      activeTexture
    }

    /**
     * LoadAnimationFromFile: Create<CTexture>(filename) under the default
     * owner; NULL means failure and the queue is left alone, otherwise the
     * texture is appended to the queue. `loads` is what the texture loader
     * would report.
     */
    method LoadAnimationFromFile(manager: AssetManager, filename: string, loads: bool) returns (ok: bool)
      requires Valid() && manager.Valid()
      requires KindAgrees(manager.assets, Texture, filename, NoOwner)
      modifies this, manager
      ensures Valid() && manager.Valid()
      ensures var c := FindOrLoad(old(manager.State()), Texture, filename, NoOwner, loads);
              && manager.State() == c.registry
              && (ok <==> c.result.Some?)
              && textures == if ok then old(textures) + [c.result.value] else old(textures)
      ensures cursor == old(cursor) && activeTexture == old(activeTexture) && enabled == old(enabled)
    {
      var texture := manager.Create(Texture, filename, NoOwner, loads);
      if texture.None? {
        return false;
      }
      textures := textures + [texture.value];
      ok := true;
    }

    /** NextSprite: step to the next texture, or loop to the first and report false. */
    method NextSprite() returns (advanced: bool)
      requires Valid() && |textures| > 0
      modifies this
      ensures Valid() && textures == old(textures) && enabled == old(enabled)
      ensures (cursor, advanced) == Next(old(cursor), |textures|)
      ensures activeTexture == Some(textures[cursor])
    {
      var step := Next(cursor, |textures|);
      cursor, advanced := step.0, step.1;
      activeTexture := Some(textures[cursor]);
    }

    /** PrevSprite: step to the previous texture, or loop to the last and report false. */
    method PrevSprite() returns (advanced: bool)
      requires Valid() && |textures| > 0
      modifies this
      ensures Valid() && textures == old(textures) && enabled == old(enabled)
      ensures (cursor, advanced) == Prev(old(cursor), |textures|)
      ensures activeTexture == Some(textures[cursor])
    {
      var step := Prev(cursor, |textures|);
      cursor, advanced := step.0, step.1;
      activeTexture := Some(textures[cursor]);
    }

    /**
     * EnableAnimation: switches animation on or off. The active texture stays
     * the one GetTexture returns; disabling does not go back to the original.
     */
    method EnableAnimation(flag: bool)
      requires Valid()
      modifies this
      ensures Valid() && enabled == flag
      ensures GetTexture() == old(GetTexture())
      ensures textures == old(textures) && cursor == old(cursor)
    {
      enabled := flag;
    }
  }

  /**
   * Loading the same file twice: the default owner makes both calls share one
   * registry entry, so once the first succeeds the same texture is appended
   * twice and the registry holds it once.
   */
  method LoadSameFileTwice(anim: Animation, manager: AssetManager, filename: string,
                           loads1: bool, loads2: bool) returns (ok1: bool, ok2: bool)
    requires anim.Valid() && manager.Valid()
    requires KindAgrees(manager.assets, Texture, filename, NoOwner)
    modifies anim, manager
    ensures ok1 ==> ok2 && |anim.textures| == |old(anim.textures)| + 2
    ensures ok1 ==> anim.textures[|anim.textures| - 1] == anim.textures[|anim.textures| - 2]
    ensures ok1 ==> |manager.assets| <= |old(manager.assets)| + 1
  {
    ok1 := anim.LoadAnimationFromFile(manager, filename, loads1);
    ghost var between := manager.State();
    if ok1 {
      LookupUnique(between, anim.textures[|anim.textures| - 1]);
    }
    ok2 := anim.LoadAnimationFromFile(manager, filename, loads2);
    if ok1 {
      CreateReturnsExisting(between, anim.textures[|anim.textures| - 2], Texture, loads2);
    }
  }
}
