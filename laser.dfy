// LaserManager of laser.py: projectiles that move in a straight line and
// are dropped as soon as they leave the closed play field (no wrap-around).

module Lasers {
  import opened Utils
  import opened Seqs

  datatype Laser = Laser(pos: Vec, vel: Vec, owner: int)

  /** Lasers travel 10 pixels per tick; `shoot_laser` turns it into a velocity by trigonometry. */
  const LaserSpeed: int := 10

  function Moved(l: Laser): Laser
  {
    l.(pos := Add(l.pos, l.vel))
  }

  /** The survivors of one `update`, in list order: each moved laser that is still on the field. */
  function Advanced(s: seq<Laser>): (r: seq<Laser>)
    decreases |s|
    ensures |r| <= |s|
    ensures forall m :: m in r ==> InClosedField(m.pos)
  {
    if s == [] then []
    else
      var m := Moved(s[|s| - 1]);
      Advanced(s[..|s| - 1]) + (if InClosedField(m.pos) then [m] else [])
  }

  /** `update` keeps the relative order of the survivors: it distributes over concatenation. */
  lemma {:induction false} AdvancedAppend(a: seq<Laser>, b: seq<Laser>)
    ensures Advanced(a + b) == Advanced(a) + Advanced(b)
    decreases |b|
  {
    if b == [] {
      assert a + b == a;
    } else {
      var b' := b[..|b| - 1];
      assert (a + b)[..|a + b| - 1] == a + b';
      assert (a + b)[|a + b| - 1] == b[|b| - 1];
      AdvancedAppend(a, b');
    }
  }

  /**
   * What `update` promises about each laser: survivors lie in the closed
   * field, never outnumber the old lasers, are moved old lasers with the
   * same velocity and owner, and an old laser survives exactly when its
   * moved position is on the field.
   */
  lemma {:induction false} AdvancedSpec(s: seq<Laser>)
    ensures |Advanced(s)| <= |s|
    ensures forall m :: m in Advanced(s) ==> InClosedField(m.pos)
    ensures forall m :: m in Advanced(s) ==>
      exists l :: l in s && m == Moved(l) && m.vel == l.vel && m.owner == l.owner
    ensures forall l :: l in s ==> (Moved(l) in Advanced(s) <==> InClosedField(Moved(l).pos))
    decreases |s|
  {
    if s != [] {
      var init := s[..|s| - 1];
      var last := s[|s| - 1];
      assert s == init + [last];
      AdvancedSpec(init);
      forall m | m in Advanced(s)
        ensures exists l :: l in s && m == Moved(l) && m.vel == l.vel && m.owner == l.owner
      {
        if m in Advanced(init) {
          var l :| l in init && m == Moved(l) && m.vel == l.vel && m.owner == l.owner;
          assert l in s;
        } else {
          assert m == Moved(last) && last in s;
        }
      }
    }
  }

  /** Advancing one more laser of the copy. */
  lemma AdvancedStep(copy: seq<Laser>, k: nat)
    requires k < |copy|
    ensures var m := Moved(copy[k]);
      Advanced(copy[..k + 1]) == Advanced(copy[..k]) + (if InClosedField(m.pos) then [m] else [])
  {
    assert copy[..k + 1][..k] == copy[..k];
  }

  /** The laser just moved off the field is the first one equal to it, so `remove` takes exactly that one. */
  lemma RemoveOffField(done: seq<Laser>, moved: Laser, rest: seq<Laser>)
    requires forall m :: m in done ==> InClosedField(m.pos)
    requires !InClosedField(moved.pos)
    ensures moved in done + [moved] + rest
    ensures RemoveFirst(done + [moved] + rest, moved) == done + rest
  {
    var s := done + [moved] + rest;
    assert s[|done|] == moved;
    assert forall j :: 0 <= j < |done| ==> s[j] == done[j] && s[j] in done;
    RemoveFirstIsRemoveAt(s, moved, |done|);
    assert RemoveAt(s, |done|) == done + rest;
  }

  /** One iteration of `update`: the live entry of `copy[k]` is moved in place and removed when off the field. */
  lemma UpdateIteration(copy: seq<Laser>, k: nat, lasers: seq<Laser>)
    requires k < |copy| && lasers == Advanced(copy[..k]) + copy[k..]
    ensures var kept, moved := |Advanced(copy[..k])|, Moved(copy[k]);
      kept < |lasers| &&
      |Advanced(copy[..k + 1])| == kept + (if InClosedField(moved.pos) then 1 else 0) &&
      (InClosedField(moved.pos) ==>
         lasers[kept := moved] == Advanced(copy[..k + 1]) + copy[k + 1..]) &&
      (!InClosedField(moved.pos) ==>
         moved in lasers[kept := moved] &&
         RemoveFirst(lasers[kept := moved], moved) == Advanced(copy[..k + 1]) + copy[k + 1..])
  {
    var done := Advanced(copy[..k]);
    var moved := Moved(copy[k]);
    AdvancedStep(copy, k);
    assert copy[k..] == [copy[k]] + copy[k + 1..];
    var next := lasers[|done| := moved];
    assert next == done + [moved] + copy[k + 1..];
    if !InClosedField(moved.pos) {
      AdvancedSpec(copy[..k]);
      RemoveOffField(done, moved, copy[k + 1..]);
    }
  }

  class LaserManager {
    var lasers: seq<Laser>

    constructor ()
      ensures lasers == []
    {
      lasers := [];
    }

    /** `shoot_laser`: `vel` is `LaserSpeed * (cos, -sin)` of the firing angle, computed outside the model. */
    method ShootLaser(pos: Vec, vel: Vec, owner: int)
      modifies this
      ensures lasers == old(lasers) + [Laser(pos, vel, owner)]
    {
      lasers := lasers + [Laser(pos, vel, owner)];
    }

    /**
     * Walks a copy of the list, moves each laser in place and removes it
     * (by value, as `list.remove` does) once it is off the field.
     */
    method Update()
      modifies this
      ensures lasers == Advanced(old(lasers))
    {
      var copy := lasers;
      var k := 0;
      var kept := 0;
      assert copy[..0] == [];
      while k < |copy|
        invariant 0 <= k <= |copy|
        invariant kept == |Advanced(copy[..k])|
        invariant lasers == Advanced(copy[..k]) + copy[k..]
      {
        UpdateIteration(copy, k, lasers);
        var moved := Moved(copy[k]);
        lasers := lasers[kept := moved];
        if !InClosedField(moved.pos) {
          lasers := RemoveFirst(lasers, moved);
        } else {
          kept := kept + 1;
        }
        k := k + 1;
      }
      assert copy[..k] == copy;
    }
  }
}
