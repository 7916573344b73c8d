/** Matching sequences against patterns of single elements and stars, in two directions. */
module Patterns {

  /** The meaning of a pattern, read from the front: a star matches any number of elements. */
  predicate Front<P, E>(star: P -> bool, one: (P, E) -> bool, pattern: seq<P>, value: seq<E>)
    decreases |pattern| + |value|
  {
    if pattern == [] then value == []
    else if star(pattern[0]) then
      Front(star, one, pattern[1..], value) || (value != [] && Front(star, one, pattern, value[1..]))
    else value != [] && one(pattern[0], value[0]) && Front(star, one, pattern[1..], value[1..])
  }

  /** The same read from the back: what the rows of the dynamic programs hold. */
  predicate Back<P, E>(star: P -> bool, one: (P, E) -> bool, pattern: seq<P>, value: seq<E>)
    decreases |pattern| + |value|
  {
    if pattern == [] then value == []
    else
      var init, last := pattern[..|pattern| - 1], pattern[|pattern| - 1];
      if star(last) then
        Back(star, one, init, value) || (value != [] && Back(star, one, pattern, value[..|value| - 1]))
      else value != [] && one(last, value[|value| - 1]) && Back(star, one, init, value[..|value| - 1])
  }

  /** Some cut of `value` matches `left` before it and `right` after it. */
  ghost predicate Joined<P, E>(star: P -> bool, one: (P, E) -> bool, left: seq<P>, right: seq<P>, value: seq<E>) {
    exists k | 0 <= k <= |value| :: Back(star, one, left, value[..k]) && Front(star, one, right, value[k..])
  }

  /** A trailing star matches any suffix. */
  lemma {:induction false} BackStar<P, E>(star: P -> bool, one: (P, E) -> bool, pattern: seq<P>, value: seq<E>)
    requires pattern != [] && star(pattern[|pattern| - 1])
    ensures Back(star, one, pattern, value)
       <==> exists k | 0 <= k <= |value| :: Back(star, one, pattern[..|pattern| - 1], value[..k])
    decreases |value|
  {
    var init := pattern[..|pattern| - 1];
    assert value[..|value|] == value;
    if value != [] {
      var shorter := value[..|value| - 1];
      BackStar(star, one, pattern, shorter);
      forall k | 0 <= k <= |shorter| ensures shorter[..k] == value[..k] {
      }
    }
  }

  /** A leading star matches any prefix. */
  lemma {:induction false} FrontStar<P, E>(star: P -> bool, one: (P, E) -> bool, pattern: seq<P>, value: seq<E>)
    requires pattern != [] && star(pattern[0])
    ensures Front(star, one, pattern, value)
       <==> exists k | 0 <= k <= |value| :: Front(star, one, pattern[1..], value[k..])
    decreases |value|
  {
    assert value[0..] == value;
    if value != [] {
      FrontStar(star, one, pattern, value[1..]);
      forall k | 0 <= k < |value| ensures value[1..][k..] == value[k + 1..] {
      }
      if k :| 0 <= k <= |value| && Front(star, one, pattern[1..], value[k..]) {
        if k > 0 {
          assert value[1..][k - 1..] == value[k..];
        }
      }
    }
  }

  lemma JoinedShiftRight<P, E>(star: P -> bool, one: (P, E) -> bool, left: seq<P>, right: seq<P>, value: seq<E>, k: nat)
    requires right != [] && k <= |value|
    requires Back(star, one, left, value[..k]) && Front(star, one, right, value[k..])
    ensures Joined(star, one, left + [right[0]], right[1..], value)
  {
    var longer := left + [right[0]];
    assert longer[..|longer| - 1] == left;
    if star(right[0]) {
      FrontStar(star, one, right, value[k..]);
      var j :| 0 <= j <= |value[k..]| && Front(star, one, right[1..], value[k..][j..]);
      assert value[k..][j..] == value[k + j..];
      assert value[..k + j][..k] == value[..k];
      BackStar(star, one, longer, value[..k + j]);
      assert Back(star, one, longer, value[..k + j]) && Front(star, one, right[1..], value[k + j..]);
    } else {
      assert value[k..][1..] == value[k + 1..];
      assert value[..k + 1][..k] == value[..k];
      assert Back(star, one, longer, value[..k + 1]) && Front(star, one, right[1..], value[k + 1..]);
    }
  }

  lemma JoinedShiftLeft<P, E>(star: P -> bool, one: (P, E) -> bool, left: seq<P>, right: seq<P>, value: seq<E>, m: nat)
    requires right != [] && m <= |value|
    requires Back(star, one, left + [right[0]], value[..m]) && Front(star, one, right[1..], value[m..])
    ensures Joined(star, one, left, right, value)
  {
    var longer := left + [right[0]];
    assert longer[..|longer| - 1] == left;
    if star(right[0]) {
      BackStar(star, one, longer, value[..m]);
      var k :| 0 <= k <= |value[..m]| && Back(star, one, left, value[..m][..k]);
      assert value[..m][..k] == value[..k];
      assert value[k..][m - k..] == value[m..];
      FrontStar(star, one, right, value[k..]);
      assert Back(star, one, left, value[..k]) && Front(star, one, right, value[k..]);
    } else {
      var k := m - 1;
      assert value[..m][..k] == value[..k];
      assert value[k..][1..] == value[m..];
      assert Back(star, one, left, value[..k]) && Front(star, one, right, value[k..]);
    }
  }

  /** Moving pattern elements across the cut changes nothing, so both readings agree. */
  lemma {:induction false} JoinedIsBack<P, E>(star: P -> bool, one: (P, E) -> bool, left: seq<P>, right: seq<P>,
                                              value: seq<E>)
    ensures Joined(star, one, left, right, value) <==> Back(star, one, left + right, value)
    decreases |right|
  {
    if right == [] {
      assert left + right == left;
      assert value[..|value|] == value && value[|value|..] == [];
      if k :| 0 <= k <= |value| && Back(star, one, left, value[..k]) && Front(star, one, right, value[k..]) {
        assert k == |value|;
      }
    } else {
      var longer := left + [right[0]];
      assert longer + right[1..] == left + right;
      JoinedIsBack(star, one, longer, right[1..], value);
      if k :| 0 <= k <= |value| && Back(star, one, left, value[..k]) && Front(star, one, right, value[k..]) {
        JoinedShiftRight(star, one, left, right, value, k);
      }
      if m :| 0 <= m <= |value| && Back(star, one, longer, value[..m]) && Front(star, one, right[1..], value[m..]) {
        JoinedShiftLeft(star, one, left, right, value, m);
      }
    }
  }

  /** Reading a pattern from the back means the same as reading it from the front. */
  lemma BackIsFront<P, E>(star: P -> bool, one: (P, E) -> bool, pattern: seq<P>, value: seq<E>)
    ensures Back(star, one, pattern, value) == Front(star, one, pattern, value)
  {
    JoinedIsBack(star, one, [], pattern, value);
    assert [] + pattern == pattern;
    assert value[..0] == [] && value[0..] == value;
    if Front(star, one, pattern, value) {
      assert Back(star, one, [], value[..0]) && Front(star, one, pattern, value[0..]);
    }
    if k :| 0 <= k <= |value| && Back(star, one, [], value[..k]) && Front(star, one, pattern, value[k..]) {
      assert k == 0;
    }
  }

  /** A pattern of two parts matches what can be cut into a match of each; this and what a single element
      matches determine the meaning of every pattern. */
  lemma FrontConcat<P, E>(star: P -> bool, one: (P, E) -> bool, left: seq<P>, right: seq<P>, value: seq<E>)
    ensures Front(star, one, left + right, value)
       <==> exists k | 0 <= k <= |value| :: Front(star, one, left, value[..k]) && Front(star, one, right, value[k..])
  {
    JoinedIsBack(star, one, left, right, value);
    BackIsFront(star, one, left + right, value);
    forall k | 0 <= k <= |value| ensures Back(star, one, left, value[..k]) == Front(star, one, left, value[..k]) {
      BackIsFront(star, one, left, value[..k]);
    }
  }

  lemma {:induction false} FrontSingle<P, E>(star: P -> bool, one: (P, E) -> bool, p: P, value: seq<E>)
    ensures Front(star, one, [], value) <==> value == []
    ensures Front(star, one, [p], value) <==> star(p) || (|value| == 1 && one(p, value[0]))
    decreases |value|
  {
    assert [p][1..] == [];
    if star(p) && value != [] {
      FrontSingle(star, one, p, value[1..]);
    }
  }
}
