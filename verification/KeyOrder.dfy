/** Byte strings in dictionary order sit inside the reals, so a tree over reals covers string keys. */
module KeyOrder {
  import opened Basics

  type Text = seq<Byte>

  /** The order in which Go compares strings. */
  predicate Less(s: Text, t: Text) {
    t != [] && (s == [] || s[0] < t[0] || (s[0] == t[0] && Less(s[1..], t[1..])))
  }

  /** The position of a string: its bytes, one up, as digits after the point in base 257. */
  function Position(s: Text): (r: real)
    ensures 0.0 <= r < 1.0
  {
    if s == [] then 0.0 else ((s[0] as int + 1) as real + Position(s[1..])) / 257.0
  }

  /** Positions compare as strings do. */
  lemma {:induction false} PositionOrder(s: Text, t: Text)
    ensures Less(s, t) <==> Position(s) < Position(t)
    ensures s == t <==> Position(s) == Position(t)
  {
    if s != [] && t != [] {
      PositionOrder(s[1..], t[1..]);
      assert s == [s[0]] + s[1..] && t == [t[0]] + t[1..];
    }
  }
}
