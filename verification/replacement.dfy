/**
 * Redaction by replacement: what is left of a value once every occurrence of it
 * has been replaced by a marker.
 */
module Replacement {
  import opened Text

  /**
   * A text cut into characters that stay and stretches a marker replaces.
   * Literal replacement and span replacement both edit this way.
   */
  datatype Piece = Kept(c: char) | Cut(s: string)

  /** The text before the edit. */
  function Before(pieces: seq<Piece>): string {
    if pieces == [] then ""
    else (match pieces[0] case Kept(c) => [c] case Cut(s) => s) + Before(pieces[1..])
  }

  /** The text after the edit. */
  function After(pieces: seq<Piece>, m: string): string {
    if pieces == [] then ""
    else (match pieces[0] case Kept(c) => [c] case Cut(_) => m) + After(pieces[1..], m)
  }

  /** Python's `t.replace(v, m)`: leftmost first, never overlapping. */
  function ReplaceAll(t: string, v: string, m: string): string
    requires v != ""
  {
    if |t| < |v| then t
    else if v <= t then m + ReplaceAll(t[|v|..], v, m)
    else [t[0]] + ReplaceAll(t[1..], v, m)
  }

  /** The edit `replace` makes. */
  function Finds(t: string, v: string): seq<Piece>
    requires v != ""
  {
    if |t| < |v| then Whole(t)
    else if v <= t then [Cut(v)] + Finds(t[|v|..], v)
    else [Kept(t[0])] + Finds(t[1..], v)
  }

  function Whole(t: string): seq<Piece> {
    seq(|t|, i requires 0 <= i < |t| => Kept(t[i]))
  }

  /**
   * The two strings can share characters when laid side by side or one inside
   * the other: one ends with the beginning of the other, or contains it.
   */
  predicate Overlaps(v: string, m: string) {
    || EndsWithStartOf(v, m)
    || EndsWithStartOf(m, v)
    || Occurs(v, m)
    || Occurs(m, v)
  }

  predicate EndsWithStartOf(a: string, b: string) {
    exists k: nat | 1 <= k <= |a| && k <= |b| :: Meets(a, b, k)
  }

  /** The last `k` characters of `a` are the first `k` of `b`. */
  predicate Meets(a: string, b: string, k: nat) {
    k <= |a| && k <= |b| && a[|a| - k..] == b[..k]
  }

  /* ---------------------------------------------------------------- edits */

  lemma {:induction false} WholeIsItself(t: string, m: string)
    ensures Before(Whole(t)) == t && After(Whole(t), m) == t
  {
    if t != "" {
      assert Whole(t)[1..] == Whole(t[1..]);
      WholeIsItself(t[1..], m);
    }
  }

  /** `replace` is the edit that cuts out what it finds. */
  lemma {:induction false} ReplaceIsEdit(t: string, v: string, m: string)
    requires v != ""
    ensures Before(Finds(t, v)) == t
    ensures After(Finds(t, v), m) == ReplaceAll(t, v, m)
  {
    if |t| < |v| {
      WholeIsItself(t, m);
    } else if v <= t {
      ReplaceIsEdit(t[|v|..], v, m);
      assert Finds(t, v)[1..] == Finds(t[|v|..], v);
    } else {
      ReplaceIsEdit(t[1..], v, m);
      assert Finds(t, v)[1..] == Finds(t[1..], v);
    }
  }

  /** A tail of `v` at the start of a marked text runs into the marker. */
  lemma TailMeetsMarker(v: string, m: string, k: nat, rest: string)
    requires k < |v| && v[k..] <= m + rest
    ensures Overlaps(v, m)
  {
    var n := |v| - k;
    if n <= |m| {
      assert (m + rest)[..n] == m[..n];
      assert Meets(v, m, n);
    } else {
      assert OccursAt(m, v, k);
    }
  }

  /** A tail of `v` that starts the edited text already started the original. */
  lemma {:induction false} PrefixIsOld(pieces: seq<Piece>, v: string, m: string, k: nat)
    requires !Overlaps(v, m) && k <= |v|
    requires v[k..] <= After(pieces, m)
    ensures v[k..] <= Before(pieces)
  {
    if k < |v| {
      match pieces[0] {
        case Kept(c) =>
          assert v[k..][1..] == v[k + 1..];
          assert After(pieces, m)[1..] == After(pieces[1..], m);
          PrefixIsOld(pieces[1..], v, m, k + 1);
          assert v[k..] == [c] + v[k + 1..];
        case Cut(_) =>
          TailMeetsMarker(v, m, k, After(pieces[1..], m));
          assert false;
      }
    }
  }

  /** An occurrence in a marked text lies behind the marker or runs into it. */
  lemma OutsideMarker(v: string, m: string, rest: string, i: nat)
    requires OccursAt(v, m + rest, i)
    ensures Overlaps(v, m) || (i >= |m| && OccursAt(v, rest, i - |m|))
  {
    if i < |m| {
      if i + |v| <= |m| {
        assert OccursAt(v, m, i);
      } else {
        var k := |m| - i;
        assert m[i..] == (m + rest)[i..i + |v|][..k] == v[..k];
        assert Meets(m, v, k);
      }
    }
  }

  /** An edit leaves no occurrence of `v` that the original did not have. */
  lemma {:induction false} NoNewOccurrence(pieces: seq<Piece>, v: string, m: string)
    requires !Overlaps(v, m)
    requires Occurs(v, After(pieces, m))
    ensures Occurs(v, Before(pieces))
  {
    var t := After(pieces, m);
    var i: nat :| i <= |t| && OccursAt(v, t, i);
    if pieces != [] {
      var old_, rest := Before(pieces[1..]), After(pieces[1..], m);
      match pieces[0] {
        case Kept(c) =>
          if i == 0 {
            PrefixIsOld(pieces, v, m, 0);
            assert OccursAt(v, Before(pieces), 0);
          } else {
            assert OccursAt(v, rest, i - 1);
            NoNewOccurrence(pieces[1..], v, m);
            OccursInPart(v, [c], old_, "");
            assert [c] + old_ + "" == Before(pieces);
          }
        case Cut(s) =>
          OutsideMarker(v, m, rest, i);
          NoNewOccurrence(pieces[1..], v, m);
          OccursInPart(v, s, old_, "");
          assert s + old_ + "" == Before(pieces);
      }
    }
  }

  /* ------------------------------------------------------ one replacement */

  /** The part of the replaced text that starts with a tail of `u` holds no `w`, for it was there before. */
  lemma {:induction false} TailHoldsNone(t: string, w: string, u: string, m: string, k: nat)
    requires w != "" && !Overlaps(u, m) && k <= |u|
    requires u[k..] <= ReplaceAll(t, w, m)
    ensures forall j: nat | k <= j :: !OccursAt(w, u, j)
    decreases |u| - k
  {
    if k < |u| && |t| >= |w| {
      if w <= t {
        TailMeetsMarker(u, m, k, ReplaceAll(t[|w|..], w, m));
        assert false;
      } else {
        ReplaceIsEdit(t, w, m);
        PrefixIsOld(Finds(t, w), u, m, k);
        assert u[k..][1..] == u[k + 1..];
        TailHoldsNone(t[1..], w, u, m, k + 1);
        assert k + |w| <= |u| ==> u[k..][..|w|] == u[k..k + |w|] == t[..|w|];
      }
    }
  }

  /** Replacing a value leaves no stretch around it that cannot run into the marker. */
  lemma {:induction false} ReplaceRemoves(t: string, w: string, u: string, m: string)
    requires w != "" && Occurs(w, u) && !Overlaps(u, m)
    ensures !Occurs(u, ReplaceAll(t, w, m))
  {
    var out := ReplaceAll(t, w, m);
    if Occurs(u, out) {
      var i: nat :| i <= |out| && OccursAt(u, out, i);
      if i == 0 {
        TailHoldsNone(t, w, u, m, 0);
      } else if |t| >= |w| {
        if w <= t {
          OutsideMarker(u, m, ReplaceAll(t[|w|..], w, m), i);
          ReplaceRemoves(t[|w|..], w, u, m);
        } else {
          assert OccursAt(u, ReplaceAll(t[1..], w, m), i - 1);
          ReplaceRemoves(t[1..], w, u, m);
        }
      }
      assert false;
    }
  }

  /** `replace` changes nothing when the value is not there. */
  lemma {:induction false} ReplaceOfAbsent(t: string, v: string, m: string)
    requires v != "" && !Occurs(v, t)
    ensures ReplaceAll(t, v, m) == t
  {
    if |t| >= |v| {
      assert v <= t ==> OccursAt(v, t, 0);
      assert t[..1] + t[1..] + "" == t;
      if Occurs(v, t[1..]) {
        OccursInPart(v, t[..1], t[1..], "");
      }
      ReplaceOfAbsent(t[1..], v, m);
    }
  }

  /** Scanning `before + v + after` from the left first meets `v` behind `before`. */
  predicate FirstBehind(before: string, v: string, after: string) {
    before != "" ==> !(v <= before + v + after) && FirstBehind(before[1..], v, after)
  }

  /** `replace` cuts at the first occurrence and goes on behind it. */
  lemma {:induction false} ReplaceAtFirst(before: string, v: string, after: string, m: string)
    requires v != "" && FirstBehind(before, v, after)
    ensures ReplaceAll(before + v + after, v, m) == before + m + ReplaceAll(after, v, m)
  {
    var t := before + v + after;
    if before == "" {
      assert v <= t && t[|v|..] == after;
    } else {
      assert t[1..] == before[1..] + v + after;
      ReplaceAtFirst(before[1..], v, after, m);
      assert ReplaceAll(t, v, m) == [t[0]] + ReplaceAll(t[1..], v, m);
      assert [t[0]] + before[1..] == before;
    }
  }

  /* --------------------------------------------------- the exact condition */

  /** Some occurrence of `v` is there after replacing every `v` in `t`. */
  predicate Survives(v: string, t: string, m: string)
    requires v != ""
  {
    Occurs(v, ReplaceAll(t, v, m))
  }

  /** Cutting `v` out of this text puts `v` together again. */
  lemma SpringTrap(before: string, v: string, after: string, m: string)
    requires v != "" && |after| < |v|
    requires FirstBehind(before, v, after)
    requires Occurs(v, before + m + after)
    ensures Survives(v, before + v + after, m)
  {
    ReplaceAtFirst(before, v, after, m);
  }

  /** A value whose `j`-th character differs from its first is not met early. */
  lemma {:induction false} NotMetEarly(v: string, k: nat, j: nat, after: string)
    requires k <= j < |v| && v[j] != v[0]
    ensures FirstBehind(v[k..j], v, after)
    decreases j - k
  {
    if k < j {
      assert v[k..j][1..] == v[k + 1..j];
      NotMetEarly(v, k + 1, j, after);
      var t := v[k..j] + v + after;
      assert t[0] == v[k] && t[j] == v[k];
    }
  }

  lemma OverlapSetsTrap(v: string, m: string) returns (t: string)
    requires v != "" && Overlaps(v, m)
    requires m != "" && m[0] == m[|m| - 1]
    ensures Survives(v, t, m)
  {
    OccursItself(v);
    if Occurs(v, m) {
      assert "" + m + "" == m;
      SpringTrap("", v, "", m);
      t := "" + v + "";
    } else if EndsWithStartOf(m, v) || v[0] == m[0] {
      t := TrapAtMarkerEnd(v, m);
    } else {
      t := TrapAtMarkerStart(v, m);
    }
  }

  lemma TrapAtMarkerEnd(v: string, m: string) returns (t: string)
    requires v != "" && m != "" && m[0] == m[|m| - 1]
    requires EndsWithStartOf(m, v) || v[0] == m[0]
    ensures Survives(v, t, m)
  {
    assert v[0] == m[0] ==> Meets(m, v, 1);
    var k: nat :| 1 <= k <= |m| && k <= |v| && Meets(m, v, k);
    MarkerGoesBefore(v, m, k);
    SpringTrap("", v, v[k..], m);
    t := "" + v + v[k..];
  }

  lemma MarkerGoesBefore(v: string, m: string, k: nat)
    requires Meets(m, v, k)
    ensures Occurs(v, "" + m + v[k..])
  {
    var start := m[..|m| - k];
    OccursItself(v);
    OccursInPart(v, start, v, "");
    assert m == start + v[..k];
    assert "" + m + v[k..] == start + v + "";
  }

  lemma TrapAtMarkerStart(v: string, m: string) returns (t: string)
    requires v != "" && m != "" && v[0] != m[0]
    requires EndsWithStartOf(v, m) || Occurs(m, v)
    ensures Survives(v, t, m)
  {
    var j, after;
    if EndsWithStartOf(v, m) {
      var k: nat :| 1 <= k <= |v| && k <= |m| && Meets(v, m, k);
      MarkerGoesBehind(v, m, k);
      j, after := |v| - k, "";
    } else {
      var i: nat :| i <= |v| && OccursAt(m, v, i);
      MarkerGoesInside(v, m, i);
      j, after := i, v[i + |m|..];
    }
    assert v[..j] == v[0..j];
    NotMetEarly(v, 0, j, after);
    SpringTrap(v[..j], v, after, m);
    t := v[..j] + v + after;
  }

  lemma MarkerGoesBehind(v: string, m: string, k: nat)
    requires 1 <= k && Meets(v, m, k)
    ensures Occurs(v, v[..|v| - k] + m + "") && v[|v| - k] == m[0]
  {
    OccursItself(v);
    OccursInPart(v, "", v, m[k..]);
    assert v[|v| - k..][0] == m[0];
    assert v[..|v| - k] + m + "" == "" + v + m[k..];
  }

  lemma MarkerGoesInside(v: string, m: string, i: nat)
    requires m != "" && OccursAt(m, v, i)
    ensures Occurs(v, v[..i] + m + v[i + |m|..]) && v[i] == m[0]
  {
    OccursItself(v);
    assert v[i..i + |m|][0] == m[0];
    assert v[..i] + m + v[i + |m|..] == v;
  }

  lemma OccursItself(v: string)
    ensures Occurs(v, v)
  {
    assert OccursAt(v, v, 0);
  }

  /**
   * Replacement removes a value from every text exactly when the value and
   * the marker cannot overlap.
   */
  lemma RemovesIffNoOverlap(v: string, m: string)
    requires v != ""
    requires m != "" && m[0] == m[|m| - 1]
    ensures (forall t :: !Survives(v, t, m)) <==> !Overlaps(v, m)
  {
    if Overlaps(v, m) {
      var t := OverlapSetsTrap(v, m);
    } else {
      OccursItself(v);
      forall t ensures !Survives(v, t, m) {
        ReplaceRemoves(t, v, v, m);
      }
    }
  }
}
