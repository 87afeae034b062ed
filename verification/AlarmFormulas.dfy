/**
 Expansion of the symbols of an alarm formula. The code replaces one symbol after the other in
 place; the specification replaces all of them at once.
 */
module AlarmFormulas {
  import opened Wrappers
  import opened Text
  import opened TaskOrder

  // ----- find and replace -----

  predicate Occurs(s: string, part: string) {
    exists i :: 0 <= i <= |s| && part <= s[i..]
  }

  /** Replaces every occurrence from left to right, without overlaps. */
  function ReplaceAll(s: string, part: string, text: string): string
    requires part != ""
  {
    if s == "" then ""
    else if part <= s then text + ReplaceAll(s[|part|..], part, text)
    else [s[0]] + ReplaceAll(s[1..], part, text)
  }

  /** Text without an occurrence at its start positions is copied. */
  lemma {:induction false} ReplaceCopies(s: string, part: string, text: string, n: nat)
    requires part != "" && n <= |s| && forall i :: 0 <= i < n ==> !(part <= s[i..])
    ensures ReplaceAll(s, part, text) == s[..n] + ReplaceAll(s[n..], part, text)
  {
    if n > 0 {
      forall i | 0 <= i < n - 1
        ensures !(part <= s[1..][i..])
      {
        assert s[1..][i..] == s[i + 1..];
      }
      assert !(part <= s[0..]) && s[0..] == s;
      ReplaceCopies(s[1..], part, text, n - 1);
      assert s[1..][n - 1..] == s[n..];
      assert s[..n] == [s[0]] + s[1..][..n - 1];
    }
  }

  /** Edits the string in place; the search resumes behind the replacement. */
  method StringFindAndReplace(s: string, part: string, text: string) returns (rc: int, s': string)
    requires part != ""  // for an empty part the loop of the code does not end
    ensures rc == (if Occurs(s, part) then 0 else -1)
    ensures s' == ReplaceAll(s, part, text)
  {
    s' := s;
    var pos, nfound := 0, 0;
    var next := Find(s', part, pos);
    while next.Some?
      invariant 0 <= pos <= |s'| && nfound >= 0
      invariant next == Find(s', part, pos)
      invariant ReplaceAll(s, part, text) == s'[..pos] + ReplaceAll(s'[pos..], part, text)
      invariant nfound == 0 ==> s' == s && pos == 0
      invariant nfound > 0 ==> Occurs(s, part)
      decreases |s'| - pos
    {
      var at := next.value;
      ReplaceFirst(s', part, text, pos, at);
      s' := s'[..at] + text + s'[at + |part|..];
      pos := at + |text|;
      nfound := nfound + 1;
      next := Find(s', part, pos);
    }
    NothingLeft(s', part, text, pos);
    rc := if nfound == 0 then -1 else 0;
  }

  lemma {:induction false} ReplaceAt(s: string, part: string, text: string, n: nat)
    requires part != "" && n + |part| <= |s| && part <= s[n..]
    requires forall i :: 0 <= i < n ==> !(part <= s[i..])
    ensures ReplaceAll(s, part, text) == s[..n] + text + ReplaceAll(s[n + |part|..], part, text)
  {
    ReplaceCopies(s, part, text, n);
    assert s[n..][|part|..] == s[n + |part|..];
  }

  lemma {:induction false} ReplaceFirst(s: string, part: string, text: string, pos: nat, at: nat)
    requires part != "" && pos <= at && at + |part| <= |s| && part <= s[at..]
    requires forall i :: pos <= i < at ==> !(part <= s[i..])
    ensures var s', pos' := s[..at] + text + s[at + |part|..], at + |text|;
      s[..pos] + ReplaceAll(s[pos..], part, text) == s'[..pos'] + ReplaceAll(s'[pos'..], part, text)
  {
    var tail, n := s[pos..], at - pos;
    var rest := s[at + |part|..];
    assert tail[n..] == s[at..] && tail[n + |part|..] == rest && s[..pos] + tail[..n] == s[..at];
    forall i | 0 <= i < n
      ensures !(part <= tail[i..])
    {
      assert tail[i..] == s[pos + i..];
    }
    ReplaceAt(tail, part, text, n);
    hide ReplaceAll;
    Regrouped(s[..pos], tail[..n], text, ReplaceAll(rest, part, text));
    Spliced(s[..at], text, rest);
  }

  lemma Regrouped(a: string, b: string, c: string, d: string)
    ensures a + (b + c + d) == (a + b) + c + d
  {
  }

  lemma Spliced(a: string, text: string, c: string)
    ensures var s := a + text + c; s[..|a| + |text|] == a + text && s[|a| + |text|..] == c
  {
  }

  lemma NothingLeft(s: string, part: string, text: string, pos: nat)
    requires part != "" && pos <= |s| && Find(s, part, pos).None?
    ensures s[..pos] + ReplaceAll(s[pos..], part, text) == s
    ensures pos == 0 ==> !Occurs(s, part)
  {
    hide ReplaceAll;
    var tail := s[pos..];
    forall i | 0 <= i < |tail|
      ensures !(part <= tail[i..])
    {
      assert tail[i..] == s[pos + i..];
    }
    AbsentIsCopied(tail, part, text);
  }

  lemma AbsentIsCopied(s: string, part: string, text: string)
    requires part != "" && forall i :: 0 <= i < |s| ==> !(part <= s[i..])
    ensures ReplaceAll(s, part, text) == s
  {
    ReplaceCopies(s, part, text, |s|);
    assert s[|s|..] == "" && s[..|s|] == s;
  }

  // ----- all symbols at once -----

  datatype Symbol = Symbol(name: string, value: string) {
    function Alias(): string {
      "$" + name
    }
  }

  predicate Plain(s: string) {
    '$' !in s
  }

  /** Names and values contain no '$', and the symbols come in the order of the map, by name. */
  predicate WellFormed(symbols: seq<Symbol>) {
    && (forall i :: 0 <= i < |symbols| ==> Plain(symbols[i].name) && Plain(symbols[i].value))
    && forall i, j :: 0 <= i < j < |symbols| ==> StringLess(symbols[i].name, symbols[j].name)
  }

  predicate PrefixFree(symbols: seq<Symbol>) {
    forall i, j :: 0 <= i < |symbols| && 0 <= j < |symbols| && i != j ==> !(symbols[i].name <= symbols[j].name)
  }

  /** A prefix comes first in the order of the map. */
  lemma {:induction false} PrefixIsNotGreater(a: string, b: string)
    requires a <= b
    ensures !StringLess(b, a)
  {
    if a != "" {
      PrefixIsNotGreater(a[1..], b[1..]);
    }
  }

  /** The first symbol, from index `i` on, whose alias the string starts with. */
  function SymbolAt(s: string, symbols: seq<Symbol>, i: nat): (r: Option<nat>)
    requires i <= |symbols|
    ensures r.Some? ==> i <= r.value < |symbols| && symbols[r.value].Alias() <= s
    ensures r.Some? ==> forall k :: i <= k < r.value ==> !(symbols[k].Alias() <= s)
    ensures r.None? ==> forall k :: i <= k < |symbols| ==> !(symbols[k].Alias() <= s)
    decreases |symbols| - i
  {
    if i == |symbols| then None
    else if symbols[i].Alias() <= s then Some(i)
    else SymbolAt(s, symbols, i + 1)
  }

  /** Replaces the first `k` symbols at once and keeps the others. */
  function Substituted(s: string, symbols: seq<Symbol>, k: nat): string {
    if s == "" then ""
    else match SymbolAt(s, symbols, 0)
      case Some(i) =>
        (if i < k then symbols[i].value else symbols[i].Alias())
        + Substituted(s[|symbols[i].Alias()|..], symbols, k)
      case None => [s[0]] + Substituted(s[1..], symbols, k)
  }

  /** Every '$' of the string begins a symbol. */
  predicate DollarsBeginSymbols(s: string, symbols: seq<Symbol>) {
    forall i :: 0 <= i < |s| && s[i] == '$' ==> SymbolAt(s[i..], symbols, 0).Some?
  }

  /** The string uses the symbol `k`. */
  predicate Uses(s: string, symbols: seq<Symbol>, k: nat) {
    s != "" && match SymbolAt(s, symbols, 0)
      case Some(i) => i == k || Uses(s[|symbols[i].Alias()|..], symbols, k)
      case None => Uses(s[1..], symbols, k)
  }

  lemma DollarsInSuffix(s: string, symbols: seq<Symbol>, n: nat)
    requires DollarsBeginSymbols(s, symbols) && n <= |s|
    ensures DollarsBeginSymbols(s[n..], symbols)
  {
    forall i | 0 <= i < |s[n..]| && s[n..][i] == '$'
      ensures SymbolAt(s[n..][i..], symbols, 0).Some?
    {
      assert s[n..][i..] == s[n + i..];
    }
  }

  lemma PlainHasNoStart(a: string, t: string, alias: string, i: nat)
    requires Plain(a) && alias != "" && alias[0] == '$' && i < |a|
    ensures !(alias <= (a + t)[i..])
  {
    assert (a + t)[i..][0] == a[i];
  }

  lemma PlainIsCopied(a: string, t: string, alias: string, text: string)
    requires Plain(a) && alias != "" && alias[0] == '$'
    ensures ReplaceAll(a + t, alias, text) == a + ReplaceAll(t, alias, text)
  {
    var s := a + t;
    forall i | 0 <= i < |a|
      ensures !(alias <= s[i..])
    {
      PlainHasNoStart(a, t, alias, i);
    }
    ReplaceCopies(s, alias, text, |a|);
    hide ReplaceAll;
    assert s[..|a|] == a && s[|a|..] == t;
  }

  lemma PlainHidesNothing(a: string, t: string, alias: string)
    requires Plain(a) && alias != "" && alias[0] == '$'
    ensures Occurs(a + t, alias) <==> Occurs(t, alias)
  {
    var s := a + t;
    OccursBehind(a, t, alias);
    if Occurs(s, alias) {
      var i :| 0 <= i <= |s| && alias <= s[i..];
      if i < |a| {
        PlainHasNoStart(a, t, alias, i);
      }
      assert s[i..] == t[i - |a|..];
    }
  }

  lemma OccursBehind(a: string, t: string, part: string)
    ensures Occurs(t, part) ==> Occurs(a + t, part)
  {
    if Occurs(t, part) {
      var j :| 0 <= j <= |t| && part <= t[j..];
      assert (a + t)[|a| + j..] == t[j..];
    }
  }

  /** Plain text in front of the rest is copied and hides no alias. */
  lemma PlainPrefix(a: string, t: string, alias: string, text: string)
    requires Plain(a) && alias != "" && alias[0] == '$'
    ensures ReplaceAll(a + t, alias, text) == a + ReplaceAll(t, alias, text)
    ensures Occurs(a + t, alias) <==> Occurs(t, alias)
  {
    hide ReplaceAll, Occurs;
    PlainIsCopied(a, t, alias, text);
    PlainHidesNothing(a, t, alias);
  }

  lemma NoCommonStart(name: string, other: string, t: string)
    requires !(name <= other) && !(other <= name)
    ensures !(other <= name + t)
  {
    if |other| <= |name| {
      assert (name + t)[..|other|] == name[..|other|];
    } else {
      assert (name + t)[..|name|] == name;
    }
  }

  /** Behind a '$', one name does not begin the alias of an unrelated one. */
  lemma NotAtAlias(name: string, other: string, t: string)
    requires !(name <= other) && !(other <= name)
    ensures !("$" + other <= "$" + name + t)
  {
    var s, b := "$" + name + t, "$" + other;
    assert s[1..] == name + t && b[1..] == other && (b <= s ==> b[1..] <= s[1..]);
    NoCommonStart(name, other, t);
  }

  lemma UnrelatedIsCopied(name: string, other: string, text: string, t: string)
    requires Plain(name) && !(name <= other) && !(other <= name)
    ensures ReplaceAll("$" + name + t, "$" + other, text) == "$" + name + ReplaceAll(t, "$" + other, text)
  {
    var s, b := "$" + name + t, "$" + other;
    NotAtAlias(name, other, t);
    PlainPrefix(name, t, b, text);
    assert s[1..] == name + t;
    assert ReplaceAll(s, b, text) == ['$'] + ReplaceAll(s[1..], b, text);
  }

  lemma UnrelatedHidesNothing(name: string, other: string, t: string)
    requires Plain(name) && !(name <= other) && !(other <= name)
    ensures Occurs("$" + name + t, "$" + other) <==> Occurs(t, "$" + other)
  {
    hide ReplaceAll;
    var s, b := "$" + name + t, "$" + other;
    NotAtAlias(name, other, t);
    PlainPrefix(name, t, b, "");
    assert s[1..] == name + t;
    OccursLater(s, b);
  }

  lemma OccursLater(s: string, part: string)
    requires s != "" && !(part <= s)
    ensures Occurs(s, part) <==> Occurs(s[1..], part)
  {
    if Occurs(s, part) {
      var j :| 0 <= j <= |s| && part <= s[j..];
      assert s[0..] == s;
      assert s[1..][j - 1..] == s[j..];
    }
    if Occurs(s[1..], part) {
      var j :| 0 <= j <= |s[1..]| && part <= s[1..][j..];
      assert s[1..][j..] == s[j + 1..];
    }
  }

  /** The alias of another symbol is copied as well. */
  lemma OtherAlias(symbols: seq<Symbol>, i: nat, k: nat, t: string)
    requires i < |symbols| && k < |symbols| && Plain(symbols[i].name)
    requires !(symbols[i].name <= symbols[k].name) && !(symbols[k].name <= symbols[i].name)
    ensures var s, a, b := symbols[i].Alias() + t, symbols[i].Alias(), symbols[k].Alias();
      && ReplaceAll(s, b, symbols[k].value) == a + ReplaceAll(t, b, symbols[k].value)
      && (Occurs(s, b) <==> Occurs(t, b))
  {
    hide ReplaceAll, Occurs;
    UnrelatedIsCopied(symbols[i].name, symbols[k].name, symbols[k].value, t);
    UnrelatedHidesNothing(symbols[i].name, symbols[k].name, t);
  }

  lemma AliasKeepsPrefix(a: Symbol, b: Symbol)
    ensures a.name <= b.name ==> a.Alias() <= b.Alias()
  {
  }

  /** A symbol found first has no earlier one as a prefix, nor is it a prefix of an earlier one. */
  lemma FoundIsUnrelated(s: string, symbols: seq<Symbol>, i: nat, k: nat)
    requires WellFormed(symbols) && SymbolAt(s, symbols, 0) == Some(i) && k < i
    ensures !(symbols[i].name <= symbols[k].name) && !(symbols[k].name <= symbols[i].name)
  {
    if symbols[i].name <= symbols[k].name {
      PrefixIsNotGreater(symbols[i].name, symbols[k].name);
    }
    AliasKeepsPrefix(symbols[k], symbols[i]);
  }

  lemma OwnAlias(alias: string, text: string, t: string)
    requires alias != ""
    ensures ReplaceAll(alias + t, alias, text) == text + ReplaceAll(t, alias, text)
    ensures Occurs(alias + t, alias)
  {
    var s := alias + t;
    assert s[|alias|..] == t && alias <= s && s[0..] == s;
  }

  /** Replacing the next symbol in a partly substituted formula substitutes one symbol more. */
  lemma {:induction false} ReplacingSubstitutes(s: string, symbols: seq<Symbol>, k: nat)
    requires WellFormed(symbols) && DollarsBeginSymbols(s, symbols) && k < |symbols|
    ensures ReplaceAll(Substituted(s, symbols, k), symbols[k].Alias(), symbols[k].value)
         == Substituted(s, symbols, k + 1)
    decreases |s|
  {
    if s != "" {
      var alias, value := symbols[k].Alias(), symbols[k].value;
      match SymbolAt(s, symbols, 0) {
        case Some(i) =>
          var n := |symbols[i].Alias()|;
          var t := Substituted(s[n..], symbols, k);
          DollarsInSuffix(s, symbols, n);
          ReplacingSubstitutes(s[n..], symbols, k);
          if i < k {
            PlainPrefix(symbols[i].value, t, alias, value);
          } else if i == k {
            OwnAlias(alias, value, t);
          } else {
            FoundIsUnrelated(s, symbols, i, k);
            OtherAlias(symbols, i, k, t);
          }
        case None =>
          assert s[0] != '$' by {
            assert s[0..] == s;
          }
          DollarsInSuffix(s, symbols, 1);
          ReplacingSubstitutes(s[1..], symbols, k);
          PlainPrefix([s[0]], Substituted(s[1..], symbols, k), alias, value);
      }
    }
  }

  /**
   The next symbol to substitute occurs exactly if the original formula uses it; if no name is a
   prefix of another, so does any symbol not yet substituted.
   */
  lemma {:induction false} OccursIffUsed(s: string, symbols: seq<Symbol>, j: nat, k: nat)
    requires WellFormed(symbols) && DollarsBeginSymbols(s, symbols) && j <= k < |symbols|
    requires j == k || PrefixFree(symbols)
    ensures Occurs(Substituted(s, symbols, j), symbols[k].Alias()) <==> Uses(s, symbols, k)
    decreases |s|
  {
    var alias := symbols[k].Alias();
    if s != "" {
      match SymbolAt(s, symbols, 0) {
        case Some(i) =>
          var n := |symbols[i].Alias()|;
          var t := Substituted(s[n..], symbols, j);
          DollarsInSuffix(s, symbols, n);
          OccursIffUsed(s[n..], symbols, j, k);
          if i < j {
            PlainPrefix(symbols[i].value, t, alias, "");
          } else if i == k {
            OwnAlias(alias, "", t);
          } else {
            if k < i {
              FoundIsUnrelated(s, symbols, i, k);
            }
            OtherAlias(symbols, i, k, t);
          }
        case None =>
          assert s[0] != '$' by {
            assert s[0..] == s;
          }
          DollarsInSuffix(s, symbols, 1);
          OccursIffUsed(s[1..], symbols, j, k);
          PlainPrefix([s[0]], Substituted(s[1..], symbols, j), alias, "");
      }
    }
  }

  lemma {:induction false} NothingSubstituted(s: string, symbols: seq<Symbol>)
    ensures Substituted(s, symbols, 0) == s
    decreases |s|
  {
    if s != "" {
      match SymbolAt(s, symbols, 0) {
        case Some(i) =>
          var alias := symbols[i].Alias();
          NothingSubstituted(s[|alias|..], symbols);
          assert s == alias + s[|alias|..];
        case None => NothingSubstituted(s[1..], symbols);
      }
    }
  }

  /** A fully expanded formula is free of '$'. */
  lemma {:induction false} ExpandedIsPlain(s: string, symbols: seq<Symbol>)
    requires WellFormed(symbols) && DollarsBeginSymbols(s, symbols)
    ensures Plain(Substituted(s, symbols, |symbols|))
    decreases |s|
  {
    if s != "" {
      match SymbolAt(s, symbols, 0) {
        case Some(i) =>
          var n := |symbols[i].Alias()|;
          DollarsInSuffix(s, symbols, n);
          ExpandedIsPlain(s[n..], symbols);
        case None =>
          assert s[0..] == s;
          DollarsInSuffix(s, symbols, 1);
          ExpandedIsPlain(s[1..], symbols);
      }
    }
  }

  // ----- one symbol after the other -----

  datatype Expansion = Expansion(ok: bool, formula: string)

  /** Replaces the symbols from index `k` on, one by one, and stops at one that does not occur. */
  function Sequential(s: string, symbols: seq<Symbol>, k: nat): Expansion
    requires k <= |symbols|
    decreases |symbols| - k
  {
    if k == |symbols| then Expansion(true, s)
    else if !Occurs(s, symbols[k].Alias()) then Expansion(false, s)
    else Sequential(ReplaceAll(s, symbols[k].Alias(), symbols[k].value), symbols, k + 1)
  }

  lemma {:induction false} SequentialFrom(s: string, symbols: seq<Symbol>, k: nat)
    requires WellFormed(symbols) && DollarsBeginSymbols(s, symbols) && k <= |symbols|
    ensures var r := Sequential(Substituted(s, symbols, k), symbols, k);
      && (r.ok <==> forall i :: k <= i < |symbols| ==> Uses(s, symbols, i))
      && (if r.ok then r.formula == Substituted(s, symbols, |symbols|)
          else exists i :: k <= i < |symbols| && r.formula == Substituted(s, symbols, i) && !Uses(s, symbols, i))
    decreases |symbols| - k
  {
    hide WellFormed, DollarsBeginSymbols, Occurs, Uses, Substituted, ReplaceAll;
    if k < |symbols| {
      OccursIffUsed(s, symbols, k, k);
      ReplacingSubstitutes(s, symbols, k);
      SequentialFrom(s, symbols, k + 1);
    }
  }

  /**
   Replacing the symbols one after the other gives the simultaneous substitution, in which every
   '$' stands for the first symbol that it begins. It succeeds exactly when every symbol is used
   there; otherwise the symbols before an unused one are substituted.
   */
  lemma {:induction false} SequentialIsSimultaneous(s: string, symbols: seq<Symbol>)
    requires WellFormed(symbols) && DollarsBeginSymbols(s, symbols)
    ensures var r := Sequential(s, symbols, 0);
      && (r.ok <==> forall i :: 0 <= i < |symbols| ==> Uses(s, symbols, i))
      && (if r.ok then r.formula == Substituted(s, symbols, |symbols|) && Plain(r.formula)
          else exists i :: 0 <= i < |symbols| && r.formula == Substituted(s, symbols, i) && !Uses(s, symbols, i))
  {
    NothingSubstituted(s, symbols);
    SequentialFrom(s, symbols, 0);
    ExpandedIsPlain(s, symbols);
  }

  predicate AllOccur(s: string, symbols: seq<Symbol>) {
    forall i :: 0 <= i < |symbols| ==> Occurs(s, symbols[i].Alias())
  }

  lemma UsedIffOccurs(s: string, symbols: seq<Symbol>, k: nat)
    requires WellFormed(symbols) && DollarsBeginSymbols(s, symbols) && PrefixFree(symbols) && k < |symbols|
    ensures Uses(s, symbols, k) <==> Occurs(s, symbols[k].Alias())
  {
    NothingSubstituted(s, symbols);
    OccursIffUsed(s, symbols, 0, k);
  }

  /** If no name is a prefix of another, the expansion succeeds exactly when every symbol occurs. */
  lemma SucceedsIffAllOccur(s: string, symbols: seq<Symbol>)
    requires WellFormed(symbols) && DollarsBeginSymbols(s, symbols) && PrefixFree(symbols)
    ensures Sequential(s, symbols, 0).ok <==> AllOccur(s, symbols)
  {
    SequentialIsSimultaneous(s, symbols);
    hide WellFormed, PrefixFree, DollarsBeginSymbols, Occurs, Uses, Substituted, Sequential;
    if AllOccur(s, symbols) {
      forall i | 0 <= i < |symbols|
        ensures Uses(s, symbols, i)
      {
        UsedIffOccurs(s, symbols, i);
      }
    } else {
      var i :| 0 <= i < |symbols| && !Occurs(s, symbols[i].Alias());
      UsedIffOccurs(s, symbols, i);
    }
  }

  /** A symbol is never used if another name is a prefix of its own. */
  lemma {:induction false} HiddenIsNotUsed(s: string, symbols: seq<Symbol>, i: nat, k: nat)
    requires i < k < |symbols| && symbols[i].name <= symbols[k].name
    ensures !Uses(s, symbols, k)
    decreases |s|
  {
    if s != "" {
      match SymbolAt(s, symbols, 0) {
        case Some(m) =>
          AliasKeepsPrefix(symbols[i], symbols[k]);
          HiddenIsNotUsed(s[|symbols[m].Alias()|..], symbols, i, k);
        case None => HiddenIsNotUsed(s[1..], symbols, i, k);
      }
    }
  }

  /** The formula that lists the symbols from index `i` on. */
  function Listing(symbols: seq<Symbol>, i: nat): string
    requires i <= |symbols|
    decreases |symbols| - i
  {
    if i == |symbols| then "" else symbols[i].Alias() + Listing(symbols, i + 1)
  }

  lemma ListedFirst(symbols: seq<Symbol>, i: nat, t: string)
    requires i < |symbols| && Plain(symbols[i].name) && DollarsBeginSymbols(t, symbols)
    ensures DollarsBeginSymbols(symbols[i].Alias() + t, symbols)
  {
    var a := symbols[i].Alias();
    var s := a + t;
    assert s[0..] == s && a <= s;
    assert forall j :: 1 <= j < |a| ==> s[j] == symbols[i].name[j - 1];
    forall j | 0 <= j < |s| && s[j] == '$'
      ensures SymbolAt(s[j..], symbols, 0).Some?
    {
      if j > 0 {
        assert s[j..] == t[j - |a|..];
      }
    }
  }

  lemma {:induction false} ListingUsesAll(symbols: seq<Symbol>, i: nat)
    requires i <= |symbols| && forall k :: 0 <= k < |symbols| ==> Plain(symbols[k].name)
    ensures DollarsBeginSymbols(Listing(symbols, i), symbols)
    ensures forall k :: i <= k < |symbols| ==> Occurs(Listing(symbols, i), symbols[k].Alias())
    decreases |symbols| - i
  {
    if i < |symbols| {
      var a, t := symbols[i].Alias(), Listing(symbols, i + 1);
      ListingUsesAll(symbols, i + 1);
      ListedFirst(symbols, i, t);
      OwnAlias(a, "", t);
      hide DollarsBeginSymbols, Occurs, Plain;
      forall k | i < k < |symbols|
        ensures Occurs(a + t, symbols[k].Alias())
      {
        OccursBehind(a, t, symbols[k].Alias());
      }
    }
  }

  /**
   That the expansion succeeds exactly when every symbol occurs, whatever the formula, holds
   exactly when no name is a prefix of another. With such a name no formula can be expanded.
   */
  lemma SuccessLawIffPrefixFree(symbols: seq<Symbol>)
    requires WellFormed(symbols)
    ensures PrefixFree(symbols) <==>
      forall s :: DollarsBeginSymbols(s, symbols) ==> (Sequential(s, symbols, 0).ok <==> AllOccur(s, symbols))
    ensures !PrefixFree(symbols) ==>
      forall s :: DollarsBeginSymbols(s, symbols) ==> !Sequential(s, symbols, 0).ok
  {
    if PrefixFree(symbols) {
      forall s | DollarsBeginSymbols(s, symbols)
        ensures Sequential(s, symbols, 0).ok <==> AllOccur(s, symbols)
      {
        SucceedsIffAllOccur(s, symbols);
      }
    } else {
      var i, k :| 0 <= i < |symbols| && 0 <= k < |symbols| && i != k && symbols[i].name <= symbols[k].name;
      PrefixIsNotGreater(symbols[i].name, symbols[k].name);
      forall s | DollarsBeginSymbols(s, symbols)
        ensures !Sequential(s, symbols, 0).ok
      {
        HiddenIsNotUsed(s, symbols, i, k);
        SequentialIsSimultaneous(s, symbols);
      }
      ListingUsesAll(symbols, 0);
      assert AllOccur(Listing(symbols, 0), symbols);
    }
  }

  /** An alarm can be expanded only once: a second expansion finds no symbol and changes nothing. */
  lemma SecondExpansionFails(s: string, symbols: seq<Symbol>)
    requires WellFormed(symbols) && DollarsBeginSymbols(s, symbols) && symbols != []
    requires Sequential(s, symbols, 0).ok
    ensures Sequential(Sequential(s, symbols, 0).formula, symbols, 0)
         == Expansion(false, Sequential(s, symbols, 0).formula)
  {
    SequentialIsSimultaneous(s, symbols);
    PlainHasNoAlias(Sequential(s, symbols, 0).formula, symbols);
  }

  // ----- the alarm -----

  class AlarmData {
    var formula: string
    const symbols: seq<Symbol>  // in the order of the symbol map

    constructor (formula: string, symbols: seq<Symbol>)
      ensures this.formula == formula && this.symbols == symbols
    {
      this.formula, this.symbols := formula, symbols;
    }

    /** Expands the formula in place; the string handed back is the formula before the expansion. */
    method ExpandFormula() returns (rc: int, formulaExpander: string)
      modifies this`formula
      ensures formulaExpander == old(formula)
      ensures var r := Sequential(old(formula), symbols, 0);
        rc == (if symbols != [] && r.ok then 0 else -1) && formula == r.formula
    {
      formulaExpander := formula;
      if symbols == [] {
        return -1, formulaExpander;
      }
      var k := 0;
      while k < |symbols|
        invariant 0 <= k <= |symbols|
        invariant Sequential(formula, symbols, k) == Sequential(old(formula), symbols, 0)
      {
        var found;
        AbsentIsUnchanged(formula, symbols[k].Alias(), symbols[k].value);
        found, formula := StringFindAndReplace(formula, symbols[k].Alias(), symbols[k].value);
        if found < 0 {
          return -1, formulaExpander;
        }
        k := k + 1;
      }
      return 0, formulaExpander;
    }
  }

  lemma AbsentIsUnchanged(s: string, part: string, text: string)
    requires part != ""
    ensures !Occurs(s, part) ==> ReplaceAll(s, part, text) == s
  {
    if !Occurs(s, part) {
      AbsentIsCopied(s, part, text);
    }
  }

  lemma PlainHasNoAlias(s: string, symbols: seq<Symbol>)
    requires Plain(s)
    ensures DollarsBeginSymbols(s, symbols)
    ensures forall k :: 0 <= k < |symbols| ==> !Occurs(s, symbols[k].Alias())
  {
    forall k | 0 <= k < |symbols|
      ensures !Occurs(s, symbols[k].Alias())
    {
      forall i | 0 <= i <= |s|
        ensures !(symbols[k].Alias() <= s[i..])
      {
        assert symbols[k].Alias()[0] == '$' && (i < |s| ==> s[i..][0] in s);
      }
    }
  }

  /** The smallest case: both symbols occur, but the second one only behind the first. */
  lemma PrefixedNamesGoWrong()
    ensures var symbols := [Symbol("a", "x"), Symbol("ab", "y")];
      && WellFormed(symbols) && !PrefixFree(symbols)
      && DollarsBeginSymbols("$ab", symbols) && AllOccur("$ab", symbols)
      && Sequential("$ab", symbols, 0) == Expansion(false, "xb")
  {
    var symbols := [Symbol("a", "x"), Symbol("ab", "y")];
    assert symbols[0].name <= symbols[1].name;
    var s := "$ab";
    assert symbols[0].Alias() == "$a" && "$a" <= s && s[|"$a"|..] == "b";
    assert ReplaceAll("b", "$a", "x") == "b";
    assert ReplaceAll(s, "$a", "x") == "xb";
    assert s[0..] == s && symbols[1].Alias() == s;
    assert SymbolAt(s, symbols, 0) == Some(0);
    PlainHasNoAlias("xb", symbols);
  }

  lemma StrayDollarStays(symbols: seq<Symbol>)
    requires symbols == [Symbol("a", "b"), Symbol("b", "c")]
    ensures !DollarsBeginSymbols("$$a", symbols) && Substituted("$$a", symbols, 2) == "$b"
  {
    var s := "$$a";
    assert symbols[0].Alias() == "$a" && symbols[1].Alias() == "$b";
    assert s[1] == '$' && "$a"[1] == 'a' && "$b"[1] == 'b';
    assert s[0..] == s && s[1..] == "$a" && !("$a" <= s) && !("$b" <= s);
    assert "$a"[|"$a"|..] == "";
    assert SymbolAt(s, symbols, 0) == None;
    assert SymbolAt("$a", symbols, 0) == Some(0);
    assert Substituted("$a", symbols, 2) == "b";
  }

  /** A '$' that begins no symbol can join an inserted value to a symbol. */
  lemma StrayDollarsGoWrong()
    ensures var symbols := [Symbol("a", "b"), Symbol("b", "c")];
      && WellFormed(symbols)
      && !DollarsBeginSymbols("$$a", symbols)
      && Sequential("$$a", symbols, 0) == Expansion(true, "c")
      && Substituted("$$a", symbols, 2) == "$b"
  {
    hide Substituted, DollarsBeginSymbols;
    var symbols := [Symbol("a", "b"), Symbol("b", "c")];
    StrayDollarStays(symbols);
    var s := "$$a";
    assert symbols[0].Alias() == "$a" && symbols[1].Alias() == "$b";
    assert s[1] == '$' && "$a"[1] == 'a';
    assert s[0..] == s && s[1..] == "$a" && !("$a" <= s);
    assert "$a"[|"$a"|..] == "" && "$b"[|"$b"|..] == "" && "$b"[0..] == "$b";
    assert ReplaceAll("$a", "$a", "b") == "b";
    assert ReplaceAll(s, "$a", "b") == "$b";
    assert ReplaceAll("$b", "$b", "c") == "c";
    assert Occurs(s, "$a") && Occurs("$b", "$b");
  }
}
