/** White space as the runtime's trimming and its pattern class see it. */
module Whitespace {
  predicate IsSpace(c: char) {
    var n := c as int;
    9 <= n <= 13 || n == 32 || n == 160 || n == 0x1680 || 0x2000 <= n <= 0x200A || n == 0x2028 || n == 0x2029
    || n == 0x202F || n == 0x205F || n == 0x3000 || n == 0xFEFF
  }

  function TrimStart(s: string): string {
    if s != "" && IsSpace(s[0]) then TrimStart(s[1..]) else s
  }

  function TrimEnd(s: string): string {
    if s != "" && IsSpace(s[|s| - 1]) then TrimEnd(s[..|s| - 1]) else s
  }

  function Trim(s: string): string { TrimEnd(TrimStart(s)) }

  /** Trimming stops at the first visible character, and what it leaves keeps its last one. */
  lemma {:induction false} TrimStartKeeps(x: string, y: string)
    requires y != "" && !IsSpace(y[0])
    ensures TrimStart(x + y) == TrimStart(x) + y
    ensures TrimStart(x) != "" ==> x != "" && TrimStart(x)[|TrimStart(x)| - 1] == x[|x| - 1]
  {
    hide IsSpace;
    if x != "" && IsSpace(x[0]) {
      TrimStartKeeps(x[1..], y);
      assert (x + y)[1..] == x[1..] + y;
    } else {
      assert x == "" ==> x + y == y;
    }
  }

  /** So does trimming the end, which keeps the first one. */
  lemma {:induction false} TrimEndKeeps(x: string, y: string)
    requires x != "" && !IsSpace(x[|x| - 1])
    ensures TrimEnd(x + y) == x + TrimEnd(y)
    decreases |y|
  {
    hide IsSpace;
    if y != "" && IsSpace(y[|y| - 1]) {
      TrimEndKeeps(x, y[..|y| - 1]);
      assert (x + y)[..|x + y| - 1] == x + y[..|y| - 1];
    } else {
      assert y == "" ==> x + y == x;
    }
  }
}
