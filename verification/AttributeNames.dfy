/**
 The two parsers of full attribute names. One counts slashes, the other searches for
 the first slash of the device and the last slash of the name.
 */
module AttributeNames {
  import opened Wrappers
  import opened Text
  import opened TangoNames

  const QUALITY := ".quality"

  datatype AttrName = AttrName(domain: string, device: string, attr: string, quality: bool) {
    function FullDevice(): string {
      if domain == "" then device else domain + "/" + device
    }
  }

  function Slashes(s: string): nat {
    if s == "" then 0
    else Slashes(s[..|s| - 1]) + if s[|s| - 1] == '/' then 1 else 0
  }

  // ----- counting slashes -----

  /** The characters of a name up to its n-th slash. */
  function Before(s: string, n: nat): string {
    if s == "" then ""
    else Before(s[..|s| - 1], n) + if Slashes(s) < n then [s[|s| - 1]] else ""
  }

  /** The characters from the n-th slash on that are no slashes. */
  function After(s: string, n: nat): string {
    if s == "" then ""
    else After(s[..|s| - 1], n) + if Slashes(s) >= n && s[|s| - 1] != '/' then [s[|s| - 1]] else ""
  }

  /** How many slashes the attribute of a complete name has before it, counting its own. */
  function Depth(name: string): nat {
    if Contains(name, PREFIX) then 6 else 3
  }

  /** The part of a string that the C string behind it shows. */
  function Visible(s: string): string {
    var end := FindChar(s, '\0', 0);
    if end.Some? then s[..end.value] else s
  }

  function ByCounting(name: string): Option<(string, string)> {
    var device, attr := Before(Visible(name), Depth(name)), After(Visible(name), Depth(name));
    if device == "" || attr == "" then None else Some((device, attr))
  }

  method ParseFullAttrName(name: string) returns (rc: int, device: string, attr: string)
    ensures rc == (if ByCounting(name).Some? then 0 else -1)
    ensures rc == 0 ==> (device, attr) == ByCounting(name).value
  {
    device, attr := "", "";
    var ind := 0;
    var numSlashes := 3;
    if Contains(name, PREFIX) {
      numSlashes := 6;
    }
    var c := 0;
    while c < |name| && name[c] != '\0'
      invariant c <= |name| && '\0' !in name[..c]
      invariant ind == Slashes(name[..c])
      invariant device == Before(name[..c], numSlashes) && attr == After(name[..c], numSlashes)
    {
      assert name[..c + 1][..c] == name[..c];
      if name[c] == '/' {
        ind := ind + 1;
      }
      if ind < numSlashes {
        device := device + [name[c]];
      } else if name[c] != '/' {
        attr := attr + [name[c]];
      }
      c := c + 1;
    }
    assert name[..c] == Visible(name) by {
      if c < |name| {
        assert name[0..c] == name[..c];
        CharAt(name, '\0', 0, c);
      } else {
        assert name[0..] == name == name[..c];
      }
    }
    rc := if device == "" || attr == "" then -1 else 0;
  }

  // ----- searching -----

  /** The device lies between two slashes; a length below zero wraps around, so one slash alone gives the rest. */
  function Between(name: string, slash: nat, last: nat): string
    requires slash <= last < |name|
  {
    if slash < last then name[slash + 1..last] else name[slash + 1..]
  }

  function Untagged(domain: string, device: string, attr: string): AttrName {
    if Contains(attr, QUALITY) then AttrName(domain, device, attr[..|attr| - |QUALITY|], true)
    else AttrName(domain, device, attr, false)
  }

  function BySearch(name: string): Option<AttrName> {
    var last := FindLast(name, '/');
    if Contains(name, PREFIX) then
      if Facility(name).None? then None
      else
        var slash := |Facility(name).value|;
        assert name[slash] == '/';
        Some(Untagged(name[..slash], Between(name, slash, last.value), name[last.value + 1..]))
    else if ':' in name || Contains(name, "//") || last.None? then None
    else Some(Untagged("", name[..last.value], name[last.value + 1..]))
  }

  method SplitQualified(name: string) returns (ok: bool, domain: string, device: string, attr: string)
    requires 8 <= |name| < NPOS
    ensures ok == Facility(name).Some?
    ensures ok ==>
      var slash, last := |Facility(name).value|, FindLast(name, '/').value;
      domain == name[..slash] && device == Between(name, slash, last) && attr == name[last + 1..]
  {
    ok, domain, device, attr := false, "", "", "";
    var posColon := FindChar(name, ':', 8);
    var posSlash := FindChar(name, '/', 8);
    if posColon.Some? && posSlash.Some? && posColon.value < posSlash.value {
      domain := SubStr(name, 0, posSlash.value);
    } else {
      return;
    }
    var posDeviceName := FindChar(name, '/', posSlash.value);
    var posAttrName := FindLast(name, '/');
    assert posDeviceName == posSlash;
    assert posSlash.value <= posAttrName.value;
    var count := (posAttrName.value - posSlash.value - 1) % (NPOS + 1);
    device := SubStr(name, posSlash.value + 1, count);
    attr := name[posAttrName.value + 1..];
    ok := true;
  }

  method SplitUnqualified(name: string) returns (ok: bool, device: string, attr: string)
    ensures ok <==> ':' !in name && !Contains(name, "//") && FindLast(name, '/').Some?
    ensures ok ==> var last := FindLast(name, '/').value; device == name[..last] && attr == name[last + 1..]
  {
    hide Find;
    ok, device, attr := false, "", "";
    assert name[0..] == name;
    if FindChar(name, ':', 0).Some? || Find(name, "//", 0).Some? {
      return;
    }
    var posDeviceName := FindChar(name, '/', 0);
    var posAttrName := FindLast(name, '/');
    if posDeviceName.None? || posAttrName.None? {
      return;
    }
    device := SubStr(name, 0, posAttrName.value);
    attr := name[posAttrName.value + 1..];
    ok := true;
  }

  method ParseFullAttrNameAndQuality(name: string)
    returns (rc: int, domain: string, device: string, attr: string, hasQualityTag: bool)
    requires |name| < NPOS
    ensures rc == (if BySearch(name).Some? then 0 else -1)
    ensures rc == 0 ==> AttrName(domain, device, attr, hasQualityTag) == BySearch(name).value
  {
    hide Find, Between;
    rc, hasQualityTag, domain, device, attr := -1, false, "", "", "";
    var ok;
    if Contains(name, PREFIX) {
      PrefixIsEight(name);
      ok, domain, device, attr := SplitQualified(name);
    } else {
      ok, device, attr := SplitUnqualified(name);
    }
    if !ok {
      return;
    }
    if Contains(attr, QUALITY) {
      hasQualityTag := true;
      attr := SubStr(attr, 0, |attr| - 8);
    }
    rc := 0;
  }

  // ----- what the parsers do, in the characters of the name -----

  lemma ContainsIff(s: string, part: string)
    ensures Contains(s, part) <==> OccursIn(s, part)
  {
    FoundIff(s, part);
  }

  /** The search refuses exactly these names. */
  lemma SearchRefusesIff(name: string)
    ensures BySearch(name).None? <==>
      if OccursIn(name, "tango://")
      then forall h :: 8 <= h < |name| && name[h] == '/' && '/' !in name[8..h] ==> ':' !in name[8..h]
      else ':' in name || OccursIn(name, "//") || '/' !in name
  {
    ContainsIff(name, "tango://");
    ContainsIff(name, "//");
    if Contains(name, PREFIX) {
      PrefixIsEight(name);
      hide Contains;
      FacilityIff(name);
    }
    hide Contains, Facility, Untagged;
  }

  /** The host ends at the first slash behind the prefix, and a colon comes before it. */
  lemma FacilityIff(name: string)
    requires |name| >= 8
    ensures Facility(name).Some? <==>
      exists h :: 8 <= h < |name| && name[h] == '/' && '/' !in name[8..h] && ':' in name[8..h]
  {
    var colon, slash := FindChar(name, ':', 8), FindChar(name, '/', 8);
    if h :| 8 <= h < |name| && name[h] == '/' && '/' !in name[8..h] && ':' in name[8..h] {
      CharAt(name, '/', 8, h);
      PieceHas(name, ':', 8, h);
      PieceHas(name, ':', 8, |name|);
      assert name[8..|name|] == name[8..];
      PieceHas(name, ':', 8, colon.value);
    }
    if Facility(name).Some? {
      PieceHas(name, ':', 8, slash.value);
    }
  }

  lemma UntaggedMeans(domain: string, device: string, rest: string)
    ensures var r := Untagged(domain, device, rest);
      && r.domain == domain && r.device == device && (r.quality <==> OccursIn(rest, ".quality"))
      && (r.quality ==> |rest| >= 8) && r.attr == if r.quality then rest[..|rest| - 8] else rest
  {
    ContainsIff(rest, ".quality");
  }

  /** The device lies behind the host, if there is one, and before the last slash. */
  lemma SearchOfPlain(name: string, last: nat)
    requires BySearch(name).Some? && last < |name| && name[last] == '/' && '/' !in name[last + 1..]
    requires !OccursIn(name, "tango://")
    ensures BySearch(name).value == Untagged("", name[..last], name[last + 1..])
  {
    LastSlashIs(name, last);
    ContainsIff(name, "tango://");
    hide Contains, Untagged, Facility, OccursIn;
  }

  lemma QualifiedHasFacility(name: string)
    requires BySearch(name).Some? && Contains(name, PREFIX)
    ensures |name| >= 8 && Facility(name).Some?
  {
    PrefixIsEight(name);
    hide Contains, Untagged, Facility, FindLast, Between;
  }

  lemma HostBeforeLast(name: string, last: nat)
    requires |name| >= 8 && Facility(name).Some? && last < |name| && '/' !in name[last + 1..]
    ensures |Facility(name).value| <= last
  {
    FacilityReachesToSlash(name);
    NoneBehind(name, last, |Facility(name).value|);
  }

  lemma QualifiedSplit(name: string, last: nat)
    requires BySearch(name).Some? && Contains(name, PREFIX) && FindLast(name, '/') == Some(last)
    requires |name| >= 8 && Facility(name).Some? && |Facility(name).value| <= last < |name|
    ensures var h := |Facility(name).value|;
      BySearch(name).value == Untagged(name[..h], Between(name, h, last), name[last + 1..])
  {
    hide Contains, Untagged, Facility, FindLast, Between;
  }

  lemma SearchOfQualified(name: string, last: nat) returns (h: nat)
    requires BySearch(name).Some? && last < |name| && name[last] == '/' && '/' !in name[last + 1..]
    requires OccursIn(name, "tango://")
    ensures 8 <= h <= last && name[h] == '/' && '/' !in name[8..h] && ':' in name[8..h]
    ensures BySearch(name).value ==
      Untagged(name[..h], if h < last then name[h + 1..last] else name[last + 1..], name[last + 1..])
  {
    LastSlashIs(name, last);
    ContainsIff(name, "tango://");
    hide BySearch, Contains, OccursIn, Untagged, Facility, FindLast;
    QualifiedHasFacility(name);
    HostBeforeLast(name, last);
    QualifiedSplit(name, last);
    FacilityReachesToSlash(name);
    HostHasColon(name);
    h := |Facility(name).value|;
  }

  /** What the search gives for a name it does not refuse: everything is cut at the last slash, and at the host. */
  lemma SearchMeans(name: string, last: nat)
    requires BySearch(name).Some? && last < |name| && name[last] == '/' && '/' !in name[last + 1..]
    ensures var r, rest := BySearch(name).value, name[last + 1..];
      && (r.quality <==> OccursIn(rest, ".quality"))
      && (r.quality ==> |rest| >= 8) && r.attr == (if r.quality then rest[..|rest| - 8] else rest)
      && (!OccursIn(name, "tango://") ==> r.domain == "" && r.device == name[..last])
      && (OccursIn(name, "tango://") ==>
           exists h :: 8 <= h <= last && name[h] == '/' && '/' !in name[8..h] && ':' in name[8..h]
             && r.domain == name[..h] && r.device == if h < last then name[h + 1..last] else rest)
  {
    var rest := name[last + 1..];
    if OccursIn(name, "tango://") {
      var h := SearchOfQualified(name, last);
      UntaggedMeans(name[..h], if h < last then name[h + 1..last] else rest, rest);
    } else {
      SearchOfPlain(name, last);
      UntaggedMeans("", name[..last], rest);
    }
    hide BySearch, Untagged, OccursIn;
  }

  lemma HostHasColon(name: string)
    requires |name| >= 8 && Facility(name).Some?
    ensures var f := Facility(name).value; f == name[..|f|] && ':' in name[8..|f|]
  {
    var f := Facility(name).value;
    PieceHas(name, ':', 8, |f|);
  }

  lemma {:induction false} LastSlashIs(name: string, last: nat)
    requires last < |name| && name[last] == '/' && '/' !in name[last + 1..]
    ensures FindLast(name, '/') == Some(last)
  {
    var init := name[..|name| - 1];
    if last < |name| - 1 {
      assert name[last + 1..] == init[last + 1..] + [name[|name| - 1]];
      LastSlashIs(init, last);
    }
  }

  lemma NoneBehind(name: string, last: nat, h: nat)
    requires last < |name| && '/' !in name[last + 1..] && h < |name| && name[h] == '/'
    ensures h <= last
  {
    assert forall k :: last < k < |name| ==> name[last + 1..][k - last - 1] == name[k];
  }

  lemma Appended(name: string, last: nat, tag: string)
    requires last < |name| && '/' !in name[last + 1..] && '/' !in tag
    ensures (name + tag)[last + 1..] == name[last + 1..] + tag
    ensures (name + tag)[last] == name[last] && '/' !in (name + tag)[last + 1..]
    ensures StandsAt(name[last + 1..] + tag, tag, |name| - last - 1)
    ensures (name[last + 1..] + tag)[..|name| - last - 1] == name[last + 1..]
  {
  }

  lemma SearchTagMeans(name: string, last: nat)
    requires BySearch(name).Some? && last < |name| && name[last] == '/' && '/' !in name[last + 1..]
    ensures var r, rest := BySearch(name).value, name[last + 1..];
      && (r.quality <==> OccursIn(rest, ".quality"))
      && (r.quality ==> |rest| >= 8) && r.attr == (if r.quality then rest[..|rest| - 8] else rest)
  {
    SearchMeans(name, last);
  }

  /** A quality tag at the end is dropped from the attribute. */
  lemma TagIsDropped(name: string, last: nat)
    requires last < |name| && name[last] == '/' && '/' !in name[last + 1..]
    requires BySearch(name).Some? && !BySearch(name).value.quality && BySearch(name + ".quality").Some?
    ensures BySearch(name + ".quality").value.quality
    ensures BySearch(name + ".quality").value.attr == BySearch(name).value.attr
  {
    var tag := ".quality";
    assert '/' !in tag;
    Appended(name, last, tag);
    SearchTagMeans(name, last);
    SearchTagMeans(name + tag, last);
    hide BySearch, StandsAt;
  }

  // ----- the two parsers compared -----

  lemma {:induction false} FewSlashesAreAllBefore(s: string, n: nat)
    requires Slashes(s) < n
    ensures Before(s, n) == s && After(s, n) == ""
  {
    if s != "" {
      FewSlashesAreAllBefore(s[..|s| - 1], n);
    }
  }

  lemma {:induction false} BeforeHasFewSlashes(s: string, n: nat)
    requires n > 0
    ensures Slashes(Before(s, n)) < n
  {
    if Slashes(s) < n {
      FewSlashesAreAllBefore(s, n);
    } else {
      assert Before(s, n) == Before(s[..|s| - 1], n);
      BeforeHasFewSlashes(s[..|s| - 1], n);
    }
  }

  lemma {:induction false} CutAtLastSlash(s: string, last: nat)
    requires last < |s| && s[last] == '/' && '/' !in s[last + 1..]
    ensures Slashes(s) == Slashes(s[..last]) + 1
    ensures Before(s, Slashes(s)) == s[..last] && After(s, Slashes(s)) == s[last + 1..]
  {
    var init := s[..|s| - 1];
    if last == |s| - 1 {
      FewSlashesAreAllBefore(init, Slashes(s));
    } else {
      assert s[last + 1..] == init[last + 1..] + [s[|s| - 1]];
      assert init[..last] == s[..last];
      CutAtLastSlash(init, last);
    }
  }

  lemma {:induction false} SlashesOfPrefix(s: string, k: nat)
    requires k <= |s|
    ensures Slashes(s[..k]) <= Slashes(s) <= Slashes(s[..k]) + |s| - k
    ensures '/' !in s[k..] ==> Slashes(s) == Slashes(s[..k])
  {
    if k < |s| {
      var init := s[..|s| - 1];
      assert s[k..] == init[k..] + [s[|s| - 1]] && s[..k] == init[..k];
      SlashesOfPrefix(init, k);
    } else {
      assert s[..k] == s;
    }
  }

  /** Where the prefix occurs, at most its own two slashes and the characters before it count. */
  lemma SlashesOfPrefixed(name: string, at: nat, m: nat)
    requires at + 6 <= m <= at + 8 <= |name| && name[at..at + 8] == PREFIX
    ensures Slashes(name[..m]) <= at + 2
  {
    var start := name[..at + 6];
    assert start[at..] == PREFIX[..6];
    assert start[..at] == name[..at] && name[..at][..0] == "";
    SlashesOfPrefix(start, at);
    SlashesOfPrefix(name[..at], 0);
    assert name[..m][..at + 6] == start;
    SlashesOfPrefix(name[..m], at + 6);
  }

  /** The slashes of the prefix come before the slash that ends the host. */
  lemma PrefixStartsEarly(name: string, at: nat, slash: nat)
    requires at + 8 <= |name| && name[at..at + 8] == PREFIX
    requires 8 <= slash < |name| && '/' !in name[8..slash] && '/' !in name[slash + 1..]
    ensures at < 2 && at + 7 <= slash
  {
    assert forall i :: 8 <= i < slash ==> name[8..slash][i - 8] == name[i];
    assert forall i :: slash < i < |name| ==> name[slash + 1..][i - slash - 1] == name[i];
    assert name[at..at + 8][6] == name[at + 6] && name[at..at + 8][7] == name[at + 7];
  }

  lemma FewSlashesBeforeHost(name: string, at: nat, slash: nat)
    requires at + 8 <= |name| && name[at..at + 8] == PREFIX && at < 2 && at + 7 <= slash
    requires 8 <= slash < |name| && '/' !in name[8..slash]
    ensures Slashes(name[..slash]) <= 3
  {
    var m := if slash < at + 8 then slash else at + 8;
    SlashesOfPrefixed(name, at, m);
    assert name[..slash][..m] == name[..m] && name[..slash][m..] == name[m..slash];
    assert m == slash || name[m..slash] == name[8..slash][at..];
    SlashesOfPrefix(name[..slash], m);
  }

  /** A qualified name whose host part ends at its last slash has too few slashes for an attribute. */
  lemma {:induction false} HostOnlyIsTooShort(name: string, slash: nat)
    requires Contains(name, PREFIX) && 8 <= slash < |name| && name[slash] == '/'
    requires '/' !in name[8..slash] && '/' !in name[slash + 1..]
    ensures Slashes(name) < 6
  {
    hide Slashes;
    var at := Find(name, PREFIX, 0).value;
    assert name[at..at + 8] == PREFIX;
    PrefixStartsEarly(name, at, slash);
    FewSlashesBeforeHost(name, at, slash);
    CutAtLastSlash(name, slash);
  }

  lemma PrefixIsEight(name: string)
    requires Contains(name, PREFIX)
    ensures |name| >= 8
  {
  }

  lemma FacilityReachesToSlash(name: string)
    requires |name| >= 8 && Facility(name).Some?
    ensures var slash := |Facility(name).value|;
      8 <= slash < |name| && name[slash] == '/' && '/' !in name[8..slash]
  {
  }

  lemma BetweenJoinsBack(name: string, slash: nat, last: nat)
    requires slash <= last < |name| && name[slash] == '/'
    ensures name[..slash] + "/" + Between(name, slash, last) == if slash == last then name else name[..last]
  {
  }

  /** What the search took as device and attribute are the two sides of the last slash. */
  lemma {:induction false} SearchCutsAtLastSlash(name: string)
    requires BySearch(name).Some? && !BySearch(name).value.quality
    ensures FindLast(name, '/').Some?
    ensures var r, last := BySearch(name).value, FindLast(name, '/').value;
      && r.attr == name[last + 1..]
      && r.FullDevice() == if Contains(name, PREFIX) && |r.domain| == last then name else name[..last]
  {
    hide Contains;
    if Contains(name, PREFIX) {
      assert |name| >= 8 by { PrefixIsEight(name); }
      FacilityReachesToSlash(name);
      hide Facility, Between;
      var slash, last := |Facility(name).value|, FindLast(name, '/').value;
      assert slash <= last;
      BetweenJoinsBack(name, slash, last);
    }
  }

  /** Counting to `n` cuts at the last slash exactly when that is the n-th one. */
  lemma CutsAtLastIff(name: string, n: nat, last: nat)
    requires n > 0 && last < |name| && name[last] == '/' && '/' !in name[last + 1..]
    ensures Before(name, n) == name[..last] <==> Slashes(name) == n
    ensures Slashes(name) == n ==> After(name, n) == name[last + 1..]
    ensures Slashes(name) < n ==> After(name, n) == ""
    ensures Slashes(name) == Slashes(name[..last]) + 1
  {
    hide Slashes, Before, After;
    CutAtLastSlash(name, last);
    if Slashes(name) < n {
      FewSlashesAreAllBefore(name, n);
    } else {
      BeforeHasFewSlashes(name, n);
    }
  }

  lemma WithoutNulAllIsVisible(name: string)
    requires '\0' !in name
    ensures Visible(name) == name
  {
    assert name[0..] == name;
  }

  lemma ShortQualified(name: string)
    requires BySearch(name).Some? && Contains(name, PREFIX)
    requires FindLast(name, '/') == Some(|BySearch(name).value.domain|)
    ensures Slashes(name) < 6
  {
    hide Slashes, Between;
    PrefixIsEight(name);
    hide Contains;
    FacilityReachesToSlash(name);
    HostOnlyIsTooShort(name, |BySearch(name).value.domain|);
  }

  // ----- the counting parser on its own -----

  /** The number of slashes is the number of positions that hold one. */
  lemma {:induction false} SlashesAreCounted(s: string)
    ensures Slashes(s) == |SlashPositions(s)|
  {
    if s != "" {
      var init := s[..|s| - 1];
      SlashesAreCounted(init);
      LastPosition(s);
    }
  }

  function SlashPositions(s: string): set<int> {
    set i | 0 <= i < |s| && s[i] == '/'
  }

  lemma LastPosition(s: string)
    requires s != ""
    ensures var before := SlashPositions(s[..|s| - 1]);
      && |s| - 1 !in before
      && SlashPositions(s) == if s[|s| - 1] == '/' then before + {|s| - 1} else before
  {
  }

  /** `t` is `s` without its slashes. */
  predicate WithoutSlashes(s: string, t: string) {
    if s == "" then t == ""
    else if s[|s| - 1] == '/' then WithoutSlashes(s[..|s| - 1], t)
    else t != "" && t[|t| - 1] == s[|s| - 1] && WithoutSlashes(s[..|s| - 1], t[..|t| - 1])
  }

  lemma InitOfTail(s: string, k: nat)
    requires k < |s| - 1
    ensures var init, tail := s[..|s| - 1], s[k..];
      && tail != "" && tail[|tail| - 1] == s[|s| - 1] && tail[..|tail| - 1] == init[k..] && init[..k] == s[..k]
  {
  }

  lemma EnoughSlashes(s: string, n: nat, k: nat)
    requires k < |s| && s[k] == '/' && Slashes(s[..k]) + 1 == n
    ensures Slashes(s) >= n
  {
    SlashesOfPrefix(s, k + 1);
    assert s[..k + 1][..k] == s[..k];
  }

  /** Counting cuts at the n-th slash and drops the slashes from there on. */
  lemma {:induction false} CountingCuts(s: string, n: nat, k: nat)
    requires k < |s| && s[k] == '/' && Slashes(s[..k]) + 1 == n
    ensures Before(s, n) == s[..k] && WithoutSlashes(s[k..], After(s, n))
  {
    var init := s[..|s| - 1];
    EnoughSlashes(s, n, k);
    if k == |s| - 1 {
      assert init == s[..k] && s[k..] == "/" && s[k..][..0] == "";
      FewSlashesAreAllBefore(init, n);
    } else {
      InitOfTail(s, k);
      CountingCuts(init, n, k);
      hide Slashes;
      var before := After(init, n);
      assert Before(s, n) == Before(init, n) + "";
      assert (before + [s[|s| - 1]])[..|before|] == before;
      assert After(s, n) == if s[|s| - 1] != '/' then before + [s[|s| - 1]] else before;
    }
  }

  /**
   The counting parser fails for a name that holds fewer than three slashes, or six if it is
   qualified; otherwise it cuts there, and fails only if one of the two parts is empty.
   */
  lemma CountingMeans(name: string, n: nat)
    requires '\0' !in name && n == if OccursIn(name, "tango://") then 6 else 3
    ensures Slashes(name) < n ==> ByCounting(name).None?
    ensures forall k :: 0 <= k < |name| && name[k] == '/' && Slashes(name[..k]) + 1 == n ==>
      && WithoutSlashes(name[k..], After(name, n))
      && ByCounting(name) == if k == 0 || After(name, n) == "" then None else Some((name[..k], After(name, n)))
  {
    WithoutNulAllIsVisible(name);
    ContainsIff(name, "tango://");
    if Slashes(name) < n {
      FewSlashesAreAllBefore(name, n);
    }
    forall k | 0 <= k < |name| && name[k] == '/' && Slashes(name[..k]) + 1 == n
      ensures Before(name, n) == name[..k] && WithoutSlashes(name[k..], After(name, n))
    {
      CountingCuts(name, n, k);
    }
    hide Visible, Contains, OccursIn, Slashes, Before, After, WithoutSlashes;
  }

  /**
   For a name that the search splits without finding a quality tag, counting slashes gives the
   same attribute and the same device, domain in front, exactly when the attribute is not
   empty and the name has three slashes, or six if it is qualified.
   */
  lemma {:induction false} ParsersAgreeIff(name: string)
    requires '\0' !in name
    requires BySearch(name).Some? && !BySearch(name).value.quality
    ensures var r := BySearch(name).value;
      ByCounting(name) == Some((r.FullDevice(), r.attr)) <==>
        r.attr != "" && Slashes(name) == if OccursIn(name, "tango://") then 6 else 3
  {
    ContainsIff(name, "tango://");
    hide OccursIn, Visible, FindLast, Facility, Between, Untagged, BySearch, Contains, Before, After;
    WithoutNulAllIsVisible(name);
    SearchCutsAtLastSlash(name);
    assert Slashes("") == 0;
    hide Slashes;
    var r, n, last := BySearch(name).value, Depth(name), FindLast(name, '/').value;
    CutsAtLastIff(name, n, last);
    if Contains(name, PREFIX) && |r.domain| == last {
      ShortQualified(name);
    }
  }
}
