/** Searching in strings, as the standard string class does it. */
module Text {
  import opened Wrappers

  /** The first position at or after `pos` where `part` occurs. */
  function Find(s: string, part: string, pos: nat): (r: Option<nat>)
    requires pos <= |s|
    ensures r.Some? ==> pos <= r.value <= |s| && part <= s[r.value..] && r.value + |part| <= |s|
    ensures forall i :: pos <= i <= |s| && (r.Some? ==> i < r.value) ==> !(part <= s[i..])
    decreases |s| - pos
  {
    if part <= s[pos..] then Some(pos)
    else if pos == |s| then None
    else Find(s, part, pos + 1)
  }

  /** The first position at or after `pos` of a single character. */
  function FindChar(s: string, c: char, pos: nat): (r: Option<nat>)
    requires pos <= |s|
    ensures r.Some? ==> pos <= r.value < |s| && s[r.value] == c && c !in s[pos..r.value]
    ensures r.None? ==> c !in s[pos..]
    decreases |s| - pos
  {
    if pos == |s| then None
    else if s[pos] == c then Some(pos)
    else
      var r := FindChar(s, c, pos + 1);
      assert s[pos..] == [s[pos]] + s[pos + 1..];
      assert r.Some? ==> s[pos..r.value] == [s[pos]] + s[pos + 1..r.value];
      r
  }

  lemma {:induction false} CharAt(s: string, c: char, pos: nat, at: nat)
    requires pos <= at < |s| && s[at] == c && c !in s[pos..at]
    ensures FindChar(s, c, pos) == Some(at)
    decreases at - pos
  {
    if pos < at {
      assert s[pos..at] == [s[pos]] + s[pos + 1..at];
      CharAt(s, c, pos + 1, at);
    }
  }

  /** The last position of a character. */
  function FindLast(s: string, c: char): (r: Option<nat>)
    ensures r.Some? ==> r.value < |s| && s[r.value] == c && c !in s[r.value + 1..]
    ensures r.None? ==> c !in s
  {
    if s == "" then None
    else if s[|s| - 1] == c then Some(|s| - 1)
    else
      var r := FindLast(s[..|s| - 1], c);
      assert s == s[..|s| - 1] + [s[|s| - 1]];
      assert r.Some? ==> s[r.value + 1..] == s[..|s| - 1][r.value + 1..] + [s[|s| - 1]];
      r
  }

  predicate StandsAt(s: string, part: string, i: nat) {
    i + |part| <= |s| && s[i..i + |part|] == part
  }

  /** The part stands somewhere in the string. */
  predicate OccursIn(s: string, part: string) {
    exists i :: 0 <= i <= |s| && StandsAt(s, part, i)
  }

  /** A search from the start is successful exactly if the part stands somewhere. */
  lemma FoundIff(s: string, part: string)
    ensures Find(s, part, 0).Some? <==> OccursIn(s, part)
  {
    var r := Find(s, part, 0);
    if r.Some? {
      assert s[r.value..][..|part|] == s[r.value..r.value + |part|];
      assert StandsAt(s, part, r.value);
    }
    if i :| 0 <= i <= |s| && StandsAt(s, part, i) {
      assert s[i..] == part + s[i + |part|..];
      assert part <= s[i..];
    }
  }

  /** What a piece of a string contains. */
  lemma PieceHas(s: string, c: char, a: nat, b: nat)
    requires a <= b <= |s|
    ensures c in s[a..b] <==> exists k :: a <= k < b && s[k] == c
  {
    if c in s[a..b] {
      var i :| 0 <= i < |s[a..b]| && s[a..b][i] == c;
      assert s[a + i] == c;
    }
    if k :| a <= k < b && s[k] == c {
      assert s[a..b][k - a] == c;
    }
  }
}
