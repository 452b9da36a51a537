/** Messages put together from texts with separators: what of it can be told from the message. */
module Messages {
  lemma MiddleTells(x: string, y: string, z: string, w: string)
    ensures x + y + w == x + z + w <==> y == z
  {
    if x + y + w == x + z + w {
      assert |y| == |z|;
      assert (x + y + w)[|x|..|x| + |y|] == y && (x + z + w)[|x|..|x| + |z|] == z;
    }
  }

  /** A field without the separator that one follows, behind the same front. */
  lemma FieldTells(front: string, a: string, b: string, s: char, y: string, z: string)
    requires s !in a && s !in b
    ensures front + a + ([s] + y) == front + b + ([s] + z) <==> a == b && y == z
  {
    var m, n := front + a + ([s] + y), front + b + ([s] + z);
    if m == n {
      assert forall i | 0 <= i < |a| :: m[|front| + i] == a[i];
      assert forall i | 0 <= i < |b| :: n[|front| + i] == b[i];
      assert m[|front| + |a|] == s == n[|front| + |b|];
      assert |a| == |b|;
      assert m[|front|..][..|a|] == a && n[|front|..][..|b|] == b;
      assert m[|front| + |a| + 1..] == y && n[|front| + |b| + 1..] == z;
    }
  }

  /** A last field without the separator in front of it. */
  lemma LastTells(x: string, y: string, s: char, a: string, b: string)
    requires s !in a && s !in b
    ensures x + ([s] + a) == y + ([s] + b) <==> x == y && a == b
  {
    var m, n := x + ([s] + a), y + ([s] + b);
    if m == n {
      assert forall i | |x| < i < |m| :: m[i] == a[i - |x| - 1];
      assert forall i | |y| < i < |n| :: n[i] == b[i - |y| - 1];
      assert m[|x|] == s == n[|y|];
      assert |a| == |b|;
      assert m[..|x|] == x && n[..|y|] == y;
      assert m[|x| + 1..] == a && n[|y| + 1..] == b;
    }
  }
}
