/** The one piece of SQL text the core builds itself: the `?,?,?` list of
    positional parameters inside `IN (...)` (src/models/file.rs and
    src/models/relationships.rs build it the same way). */
module Sql {

  /** `qs` is `n` question marks separated by single commas. */
  ghost predicate IsPlaceholderList(qs: string, n: nat) {
    && |qs| == (if n == 0 then 0 else 2 * n - 1)
    && forall i :: 0 <= i < |qs| ==> qs[i] == (if i % 2 == 0 then '?' else ',')
  }

  /** How often `c` occurs in `s`. */
  function Count(s: string, c: char): nat {
    if s == [] then 0 else Count(s[..|s| - 1], c) + (if s[|s| - 1] == c then 1 else 0)
  }

  /** `repeat("?,").take(n).collect::<String>()`, then `pop()` of the trailing
      comma (a no-op on the empty string). */
  method Placeholders(n: nat) returns (qs: string)
    ensures IsPlaceholderList(qs, n)
  {
    qs := "";
    var i := 0;
    while i < n
      invariant 0 <= i <= n
      invariant |qs| == 2 * i
      invariant forall k :: 0 <= k < |qs| ==> qs[k] == (if k % 2 == 0 then '?' else ',')
    {
      qs := qs + "?,";
      i := i + 1;
    }
    if |qs| > 0 {
      qs := qs[..|qs| - 1];
    }
  }

  /** A placeholder list for `n` parameters holds exactly `n` question marks
      and `n - 1` commas, and ends in a question mark: one placeholder per
      bound value and no trailing comma. */
  lemma {:induction false} PlaceholderCounts(qs: string, n: nat)
    requires IsPlaceholderList(qs, n)
    ensures Count(qs, '?') == n
    ensures Count(qs, ',') == (if n == 0 then 0 else n - 1)
    ensures n > 0 ==> qs[0] == '?' && qs[|qs| - 1] == '?'
  {
    if n == 1 {
      assert qs == ['?'];
      assert qs[..0] == [];
    } else if n > 1 {
      var shorter := qs[..|qs| - 2];
      assert IsPlaceholderList(shorter, n - 1);
      PlaceholderCounts(shorter, n - 1);
      var mid := qs[..|qs| - 1];
      assert mid[..|mid| - 1] == shorter;
      assert qs[|qs| - 2] == ',' && qs[|qs| - 1] == '?';
    }
  }
}
