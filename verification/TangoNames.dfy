/**
 Parsing of full proxy and attribute names:
 `[tango://host:port/]domain/family/member[/attribute]`.
 */
module TangoNames {
  import opened Wrappers
  import opened Text

  const PREFIX := "tango://"

  /** The largest position; also what an unsuccessful search returns. */
  const NPOS: nat := 0xFFFF_FFFF_FFFF_FFFF

  predicate Contains(s: string, part: string) {
    Find(s, part, 0).Some?
  }

  /** At most `count` characters from `pos` on. */
  function SubStr(s: string, pos: nat, count: nat): string
    requires pos <= |s|
  {
    if count <= |s| - pos then s[pos..pos + count] else s[pos..]
  }

  // ----- proxy names -----

  datatype ProxyName = ProxyName(facility: string, domain: string, family: string, member: string) {
    function Plain(): string {
      domain + "/" + family + "/" + member
    }

    function Join(): string {
      if facility == "" then Plain() else facility + "/" + Plain()
    }

    /** Which parts a parser can recover from the joined name. */
    predicate WellFormed() {
      && '/' !in domain && '/' !in family
      && if facility == "" then !Contains(Join(), PREFIX)
         else
           && Contains(Join(), PREFIX)
           && |facility| >= |PREFIX| && '/' !in facility[|PREFIX|..] && ':' in facility[|PREFIX|..]
    }
  }

  /** The facility of a fully qualified name reaches to the first '/' behind the prefix and holds a ':' there. */
  function Facility(name: string): Option<string>
    requires |name| >= |PREFIX|
  {
    var colon := FindChar(name, ':', |PREFIX|);
    var slash := FindChar(name, '/', |PREFIX|);
    if colon.Some? && slash.Some? && colon.value < slash.value then Some(name[..slash.value]) else None
  }

  /** The first two parts end at the first two slashes; the member is the rest. */
  function ParsePlain(facility: string, name: string): Option<ProxyName> {
    var first := FindChar(name, '/', 0);
    if first.None? then None
    else
      var second := FindChar(name, '/', first.value + 1);
      if second.None? then None
      else Some(ProxyName(facility, name[..first.value], name[first.value + 1..second.value], name[second.value + 1..]))
  }

  function Parse(name: string): Option<ProxyName> {
    if !Contains(name, PREFIX) then ParsePlain("", name)
    else
      var facility := Facility(name);
      if facility.None? then None
      else ParsePlain(facility.value, name[|facility.value| + 1..])
  }

  /** Splits off the facility; the count of the second substring wraps around to the largest number. */
  method SplitFacility(name: string) returns (ok: bool, facility: string, proxyName: string)
    requires |PREFIX| <= |name| < NPOS
    ensures ok == Facility(name).Some?
    ensures ok ==> facility == Facility(name).value && proxyName == name[|facility| + 1..]
  {
    facility, proxyName := "", "";
    var posColon := FindChar(name, ':', 8);
    var posSlash := FindChar(name, '/', 8);
    if posColon.Some? && posSlash.Some? && posColon.value < posSlash.value {
      facility := SubStr(name, 0, posSlash.value);
    } else {
      return false, facility, proxyName;
    }
    var posProxyName := FindChar(name, '/', posSlash.value);
    assert posProxyName == posSlash;
    var count := (posProxyName.value - posSlash.value - 1) % (NPOS + 1);
    assert count == NPOS;
    proxyName := SubStr(name, posSlash.value + 1, count);
    return true, facility, proxyName;
  }

  method SplitPlain(proxyName: string) returns (ok: bool, domain: string, family: string, member: string)
    ensures ok == ParsePlain("", proxyName).Some?
    ensures ok ==> ProxyName("", domain, family, member) == ParsePlain("", proxyName).value
  {
    ok, domain, family, member := false, "", "", "";
    var posDomain := FindChar(proxyName, '/', 0);
    if posDomain.Some? {
      domain := SubStr(proxyName, 0, posDomain.value);
      var posFamily := FindChar(proxyName, '/', posDomain.value + 1);
      if posFamily.Some? {
        family := SubStr(proxyName, posDomain.value + 1, posFamily.value - posDomain.value - 1);
        // the search for the member starts on the slash just found, so it cannot fail
        member := proxyName[posFamily.value + 1..];
        ok := true;
      }
    }
  }

  /** Follows the searches and substrings of the code. */
  method ParseFullProxyName(name: string)
    returns (rc: int, facility: string, domain: string, family: string, member: string)
    requires |name| < NPOS
    ensures rc == (if Parse(name).Some? then 0 else -1)
    ensures rc == 0 ==> ProxyName(facility, domain, family, member) == Parse(name).value
  {
    facility, domain, family, member := "", "", "", "";
    var proxyName, ok := name, true;
    if Contains(name, PREFIX) {
      ok, facility, proxyName := SplitFacility(name);
    }
    if ok {
      ok, domain, family, member := SplitPlain(proxyName);
    }
    rc := if ok then 0 else -1;
  }

  /** The plain name of a parsable name is the name without its facility. */
  method GetPlainProxyName(name: string) returns (rc: int, plain: string)
    requires |name| < NPOS
    ensures rc == (if Parse(name).Some? then 0 else -1)
    ensures rc == 0 ==>
      var facility := Parse(name).value.facility; name == (if facility == "" then plain else facility + "/" + plain)
  {
    var facility, domain, family, member;
    rc, facility, domain, family, member := ParseFullProxyName(name);
    plain := "";
    if rc == 0 {
      ParsedNameJoinsBack(name);
      plain := domain + "/" + family + "/" + member;
    }
  }

  lemma PlainJoinsBack(facility: string, name: string)
    ensures var r := ParsePlain(facility, name);
      r.Some? ==>
        && r.value.Plain() == name && r.value.facility == facility
        && '/' !in r.value.domain && '/' !in r.value.family
  {
    var first := FindChar(name, '/', 0);
    if first.Some? {
      assert name[0..first.value] == name[..first.value];
      var second := FindChar(name, '/', first.value + 1);
      if second.Some? {
        assert name == name[..first.value] + "/" + name[first.value + 1..second.value] + "/" + name[second.value + 1..];
      }
    }
  }

  /** Any name that parses is rebuilt exactly from its parts. */
  lemma ParsedNameJoinsBack(name: string)
    ensures Parse(name).Some? ==> Parse(name).value.Join() == name
  {
    if Contains(name, PREFIX) {
      var facility := Facility(name);
      if facility.Some? {
        var at := |facility.value|;
        PlainJoinsBack(facility.value, name[at + 1..]);
        assert name == name[..at] + "/" + name[at + 1..];
      }
    } else {
      PlainJoinsBack("", name);
    }
  }

  lemma JoinedPlainParses(p: ProxyName)
    requires '/' !in p.domain && '/' !in p.family
    ensures ParsePlain(p.facility, p.Plain()) == Some(p)
  {
    var s := p.Plain();
    var first := |p.domain|;
    var second := first + 1 + |p.family|;
    assert s[0..first] == p.domain == s[..first] && s[first] == '/';
    assert s[first + 1..second] == p.family && s[second] == '/' && s[second + 1..] == p.member;
    CharAt(s, '/', 0, first);
    CharAt(s, '/', first + 1, second);
  }

  lemma JoinedFacilityParses(p: ProxyName)
    requires |p.facility| >= |PREFIX| && '/' !in p.facility[|PREFIX|..] && ':' in p.facility[|PREFIX|..]
    ensures Facility(p.facility + "/" + p.Plain()) == Some(p.facility)
  {
    var s, at := p.facility + "/" + p.Plain(), |p.facility|;
    assert s[|PREFIX|..at] == p.facility[|PREFIX|..];
    CharAt(s, '/', |PREFIX|, at);
    assert s[|PREFIX|..] == s[|PREFIX|..at] + s[at..];
    assert s[..at] == p.facility;
  }

  lemma FacilityIsWellFormed(name: string)
    requires |name| >= |PREFIX| && Facility(name).Some?
    ensures var f := Facility(name).value;
      |f| >= |PREFIX| && '/' !in f[|PREFIX|..] && ':' in f[|PREFIX|..]
  {
    var f := Facility(name).value;
    var colon := FindChar(name, ':', |PREFIX|).value;
    assert f[|PREFIX|..] == name[|PREFIX|..|f|];
    assert f[|PREFIX|..][colon - |PREFIX|] == ':';
  }

  lemma ParsedIsWellFormed(name: string)
    requires Parse(name).Some?
    ensures Parse(name).value.WellFormed()
  {
    ParsedNameJoinsBack(name);
    if Contains(name, PREFIX) {
      FacilityIsWellFormed(name);
      var facility := Facility(name).value;
      PlainJoinsBack(facility, name[|facility| + 1..]);
    } else {
      PlainJoinsBack("", name);
    }
    hide Contains, Facility, ParsePlain, ProxyName.Plain;
  }

  /** Joining parts and parsing gives the parts back exactly when the parts are well formed. */
  lemma JoinedPartsParseIff(p: ProxyName)
    ensures Parse(p.Join()) == Some(p) <==> p.WellFormed()
  {
    if p.WellFormed() {
      JoinedPlainParses(p);
      if p.facility != "" {
        JoinedFacilityParses(p);
        assert p.Join()[|p.facility| + 1..] == p.Plain();
      }
    }
    if Parse(p.Join()) == Some(p) {
      ParsedIsWellFormed(p.Join());
    }
  }

  /** A name is refused exactly if it is not the joined name of any well-formed parts. */
  lemma RefusedIffNotJoined(name: string)
    ensures Parse(name).None? <==> forall p: ProxyName :: p.WellFormed() ==> p.Join() != name
  {
    if Parse(name).Some? {
      ParsedIsWellFormed(name);
      ParsedNameJoinsBack(name);
    } else {
      forall p: ProxyName | p.WellFormed()
        ensures p.Join() != name
      {
        JoinedPartsParseIff(p);
      }
    }
    hide Parse, ProxyName.WellFormed, ProxyName.Join;
  }
}
