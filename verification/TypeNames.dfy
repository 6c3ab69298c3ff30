/**
 DDS type names. The generator puts a type under a `dds_` namespace and appends
 an underscore; the graph functions turn the DDS name back into the ROS name
 with slashes.
 */
module TypeNames {
  import opened Options
  import opened Strings

  const MARKER := "::dds_::"

  /** dds_type_name of the generator. */
  function DdsTypeName(namespaces: seq<string>, name: string): string {
    Join("::", namespaces + ["dds_", name + "_"])
  }

  function RosTypeName(namespaces: seq<string>, name: string): string {
    Join("/", namespaces + [name])
  }

  /** The string with its first marker replaced by a plain "::". */
  function Unmarked(s: string): string {
    if s == "" then ""
    else if StartsWith(s, MARKER) then s[6..]
    else [s[0]] + Unmarked(s[1..])
  }

  function WithoutUnderscore(s: string): string {
    if s != "" && s[|s| - 1] == '_' then s[..|s| - 1] else s
  }

  /** The string with every "::", from the left, replaced by a slash. */
  function Slashed(s: string): string {
    if s == "" then ""
    else if StartsWith(s, "::") then "/" + Slashed(s[2..])
    else [s[0]] + Slashed(s[1..])
  }

  function Demangled(s: string): string {
    Slashed(WithoutUnderscore(Unmarked(s)))
  }

  lemma {:induction false} UnmarkedAt(s: string, position: nat)
    requires position <= |s| && forall p: nat | p < position :: !MatchesAt(s, MARKER, p)
    ensures MatchesAt(s, MARKER, position) ==> Unmarked(s) == s[..position] + s[position + 6..]
    ensures position == |s| ==> Unmarked(s) == s
  {
    assert s[0..] == s;
    if position > 0 {
      assert !MatchesAt(s, MARKER, 0);
      forall p: nat | p < position - 1 ensures !MatchesAt(s[1..], MARKER, p) {
        MatchInSuffix(s, MARKER, 1, p);
      }
      MatchInSuffix(s, MARKER, 1, position - 1);
      UnmarkedAt(s[1..], position - 1);
    }
  }

  lemma {:induction false} SlashedAt(s: string, position: nat)
    requires position <= |s| && forall p: nat | p < position :: !MatchesAt(s, "::", p)
    ensures Slashed(s) == s[..position] + Slashed(s[position..])
  {
    assert s[0..] == s;
    if position > 0 {
      assert !MatchesAt(s, "::", 0);
      forall p: nat | p < position - 1 ensures !MatchesAt(s[1..], "::", p) {
        MatchInSuffix(s, "::", 1, p);
      }
      assert s[1..][position - 1..] == s[position..];
      SlashedAt(s[1..], position - 1);
    }
  }

  /** Up to position `to`, slashing leaves alone what has no "::" from `from` on. */
  lemma SlashedBetween(s: string, from: nat, to: nat)
    requires from <= to <= |s| && forall p: nat | from <= p < to :: !MatchesAt(s, "::", p)
    ensures Slashed(s[from..]) == s[from..to] + Slashed(s[to..])
  {
    forall p: nat | p < to - from ensures !MatchesAt(s[from..], "::", p) {
      MatchInSuffix(s, "::", from, p);
    }
    hide Slashed;
    SlashedAt(s[from..], to - from);
    assert s[from..][to - from..] == s[to..];
    assert s[from..][..to - from] == s[from..to];
  }

  lemma SlashedStep(s: string)
    requires StartsWith(s, "::")
    ensures Slashed(s) == "/" + Slashed(s[2..])
  {
  }

  lemma SlashedFrom(s: string, from: nat, position: nat)
    requires from <= |s| && Find(s, "::", from) == Some(position)
    ensures |s| >= position + 2
    ensures var replaced := s[..position] + "/" + s[position + 2..];
            s[..from] + Slashed(s[from..]) == replaced[..position + 1] + Slashed(replaced[position + 1..])
  {
    hide Slashed, Find;
    SlashedBetween(s, from, position);
    SlashedStep(s[position..]);
    var replaced, rest := s[..position] + "/" + s[position + 2..], Slashed(s[position + 2..]);
    assert s[position..][2..] == s[position + 2..];
    assert replaced[position + 1..] == s[position + 2..];
    assert s[..from] + (s[from..position] + ("/" + rest)) == s[..position] + "/" + rest;
  }

  lemma SlashedRest(s: string, from: nat)
    requires from <= |s| && Find(s, "::", from).None?
    ensures s == s[..from] + Slashed(s[from..])
  {
    SlashedBetween(s, from, |s|);
  }

  /** The loop of demangle_dds_type, which edits the name in place. */
  method ReplaceColons(name: string) returns (result: string)
    ensures result == Slashed(name)
  {
    hide Slashed;
    result := name;
    var from: nat := 0;
    var position := Find(result, "::", 0);
    while position.Some?
      invariant from <= |result| && position == Find(result, "::", from)
      invariant Slashed(name) == result[..from] + Slashed(result[from..])
      decreases |result|
    {
      SlashedFrom(result, from, position.value);
      result := result[..position.value] + "/" + result[position.value + 2..];
      from := position.value + 1;
      position := Find(result, "::", from);
    }
    SlashedRest(result, from);
  }

  method DemangleDdsType(ddsType: string) returns (result: string)
    ensures result == Demangled(ddsType)
  {
    hide Slashed, Unmarked;
    result := ddsType;
    var marker := Find(result, MARKER, 0);
    UnmarkedAt(ddsType, if marker.Some? then marker.value else |ddsType|);
    if marker.Some? {
      result := result[..marker.value] + result[marker.value + 6..];
    }
    if result != "" && result[|result| - 1] == '_' {
      result := result[..|result| - 1];
    }
    result := ReplaceColons(result);
  }

  predicate NoColons(s: string) {
    forall c | c in s :: c != ':'
  }

  lemma SlashedAfter(part: string, rest: string)
    requires NoColons(part)
    ensures Slashed(part + rest) == part + Slashed(rest)
  {
    var s := part + rest;
    forall p: nat | p < |part| ensures !MatchesAt(s, "::", p) {
      assert s[p..][..1] == [part[p]] && part[p] in part;
    }
    SlashedAt(s, |part|);
    assert s[|part|..] == rest && s[..|part|] == part;
  }

  /** The slashed form of a name with colons is the name with slashes. */
  lemma {:induction false} SlashedJoin(parts: seq<string>)
    requires AreParts(parts)
    ensures Slashed(Join("::", parts)) == Join("/", parts)
  {
    if |parts| == 1 {
      assert parts[0] in parts;
      SlashedAfter(parts[0], "");
      assert parts[0] + "" == parts[0];
    } else if |parts| > 1 {
      assert parts[0] in parts;
      var rest := Join("::", parts[1..]);
      assert Join("::", parts) == parts[0] + ("::" + rest);
      SlashedAfter(parts[0], "::" + rest);
      SlashedStep("::" + rest);
      assert ("::" + rest)[2..] == rest;
      SlashedJoin(parts[1..]);
    }
  }

  lemma UnmarkedStep(s: string)
    requires s != "" && !StartsWith(s, MARKER)
    ensures Unmarked(s) == [s[0]] + Unmarked(s[1..])
  {
  }

  lemma {:induction false} UnmarkedAfter(part: string, rest: string)
    requires NoColons(part)
    ensures Unmarked(part + rest) == part + Unmarked(rest)
  {
    if part == "" {
      assert part + rest == rest;
    } else {
      var s := part + rest;
      assert s[0] == part[0] && part[0] in part;
      StartMatches(s, MARKER, 0);
      UnmarkedStep(s);
      hide Unmarked, StartsWith;
      assert s[1..] == part[1..] + rest;
      forall c | c in part[1..] ensures c != ':' {
        assert c in part;
      }
      UnmarkedAfter(part[1..], rest);
      assert part == [part[0]] + part[1..];
    }
  }

  /** The parts without the first "dds_" that has a part on either side. */
  function Dropped(parts: seq<string>): (dropped: seq<string>) {
    if |parts| <= 2 then parts
    else if parts[1] == "dds_" then [parts[0]] + parts[2..]
    else [parts[0]] + Dropped(parts[1..])
  }

  lemma JoinStarts(parts: seq<string>)
    requires parts != [] && AreParts(parts)
    ensures StartsWith(Join("::", parts), parts[0])
    ensures |parts| > 1 ==> |Join("::", parts)| > |parts[0]| && Join("::", parts)[|parts[0]|] == ':'
    ensures |parts| == 1 ==> Join("::", parts) == parts[0]
    ensures Join("::", parts) != "" && Join("::", parts)[0] != ':'
    ensures forall i | 0 <= i < |parts[0]| :: i < |Join("::", parts)| && Join("::", parts)[i] != ':'
  {
    assert parts[0] in parts;
    var part, s := parts[0], Join("::", parts);
    assert s[..|part|] == part;
    forall i | 0 <= i < |part| ensures s[i] != ':' {
      assert s[i] == part[i] && part[i] in part;
    }
  }

  /** A part that ends at the first colon of "dds_:" is "dds_". */
  lemma PartEnds(s: string, part: string)
    requires StartsWith(s, part) && |part| < |s| && s[|part|] == ':'
    requires forall i | 0 <= i < |part| :: s[i] != ':'
    requires |s| >= 6 && s[..4] == "dds_" && s[4] == ':' && forall i | 0 <= i < 4 :: s[i] != ':'
    ensures part == "dds_"
  {
    assert |part| == 4;
  }

  lemma MarkerText(s: string)
    requires StartsWith("::" + s, MARKER)
    ensures |s| >= 6 && s[..4] == "dds_" && s[4] == ':'
    ensures forall i | 0 <= i < 4 :: s[i] != ':'
  {
    assert s[..6] == ("::" + s)[..8][2..];
    assert MARKER[2..] == "dds_::";
    assert s[..6] == "dds_::";
    assert s[..4] == s[..6][..4];
    assert s[4] == s[..6][4];
    assert forall i | 0 <= i < 4 :: s[i] == s[..6][i];
  }

  /** A name with colons starts with the text of the marker only at a part
      "dds_" that is not the last. */
  lemma MarkerIsPart(parts: seq<string>)
    requires parts != [] && AreParts(parts) && StartsWith("::" + Join("::", parts), MARKER)
    ensures |parts| > 1 && parts[0] == "dds_"
  {
    assert parts[0] in parts;
    var s := Join("::", parts);
    hide StartsWith;
    MarkerText(s);
    JoinStarts(parts);
    if |parts| > 1 {
      PartEnds(s, parts[0]);
    }
  }

  lemma UnmarkedPrefix(tail: string)
    ensures Unmarked(MARKER + tail) == "::" + tail
  {
    var s := MARKER + tail;
    assert s[..8] == MARKER;
    assert s[6..] == "::" + tail;
  }

  lemma JoinCons(part: string, rest: seq<string>)
    requires rest != []
    ensures Join("::", [part] + rest) == part + ("::" + Join("::", rest))
  {
    assert ([part] + rest)[1..] == rest;
    assert part + "::" + Join("::", rest) == part + ("::" + Join("::", rest));
  }

  lemma UnmarkedMarker(parts: seq<string>)
    requires |parts| > 2 && parts[1] == "dds_"
    ensures parts[0] + Unmarked("::" + Join("::", parts[1..])) == Join("::", Dropped(parts))
  {
    hide Unmarked, StartsWith;
    var tail := Join("::", parts[2..]);
    assert parts[1..][1..] == parts[2..];
    assert "::" + Join("::", parts[1..]) == MARKER + tail;
    UnmarkedPrefix(tail);
    assert Dropped(parts) == [parts[0]] + parts[2..];
    JoinCons(parts[0], parts[2..]);
  }

  lemma DroppedTail(parts: seq<string>)
    requires |parts| > 1 && !(|parts| > 2 && parts[1] == "dds_")
    ensures Dropped(parts) == [parts[0]] + Dropped(parts[1..])
    ensures Join("::", Dropped(parts)) == parts[0] + ("::" + Join("::", Dropped(parts[1..])))
  {
    assert parts == [parts[0]] + parts[1..];
    assert Dropped(parts) == [parts[0]] + Dropped(parts[1..]);
    assert Dropped(parts[1..]) != [];
    hide Dropped;
    JoinCons(parts[0], Dropped(parts[1..]));
  }

  lemma UnmarkedColons(rest: string)
    requires !StartsWith("::" + rest, MARKER) && rest != "" && rest[0] != ':'
    ensures Unmarked("::" + rest) == "::" + Unmarked(rest)
  {
    hide Unmarked, StartsWith;
    var t := ":" + rest;
    StartMatches(t, MARKER, 1);
    UnmarkedStep("::" + rest);
    UnmarkedStep(t);
    assert ("::" + rest)[1..] == t && t[1..] == rest;
    assert [':'] + ([':'] + Unmarked(rest)) == "::" + Unmarked(rest);
  }

  lemma {:induction false} UnmarkedJoin(parts: seq<string>)
    requires AreParts(parts)
    ensures Unmarked(Join("::", parts)) == Join("::", Dropped(parts))
  {
    if parts == [] {
    } else if |parts| == 1 {
      assert parts[0] in parts;
      UnmarkedAfter(parts[0], "");
      assert parts[0] + "" == parts[0];
    } else {
      assert parts[0] in parts && parts[1] in parts;
      var rest := Join("::", parts[1..]);
      assert Join("::", parts) == parts[0] + ("::" + rest);
      UnmarkedAfter(parts[0], "::" + rest);
      JoinStarts(parts[1..]);
      if |parts| > 2 && parts[1] == "dds_" {
        UnmarkedMarker(parts);
      } else {
        if StartsWith("::" + rest, MARKER) {
          MarkerIsPart(parts[1..]);
        }
        UnmarkedColons(rest);
        UnmarkedJoin(parts[1..]);
        DroppedTail(parts);
      }
    }
  }

  /** Demangling drops the first "dds_" after the first namespace, which may not
      be the one that the generator inserted. */
  function Kept(namespaces: seq<string>): (kept: seq<string>) {
    if namespaces == [] then ["dds_"]
    else if |namespaces| == 1 then namespaces
    else if namespaces[1] == "dds_" then [namespaces[0]] + namespaces[2..] + ["dds_"]
    else [namespaces[0]] + Kept(namespaces[1..])
  }

  lemma {:induction false} DroppedIsKept(namespaces: seq<string>, last: string)
    ensures Dropped(namespaces + ["dds_", last]) == Kept(namespaces) + [last]
    decreases |namespaces|
  {
    var parts := namespaces + ["dds_", last];
    if |namespaces| == 1 {
      assert parts[2..] == [last];
    } else if |namespaces| > 1 && namespaces[1] == "dds_" {
      assert parts[2..] == namespaces[2..] + ["dds_", last];
    } else if |namespaces| > 1 {
      assert parts[1..] == namespaces[1..] + ["dds_", last];
      DroppedIsKept(namespaces[1..], last);
    }
  }

  /** After a namespace "dds_" that is not the first, only more of them follow. */
  predicate Tidy(namespaces: seq<string>) {
    forall i, j | 1 <= i < j < |namespaces| :: namespaces[i] == "dds_" ==> namespaces[j] == "dds_"
  }

  lemma {:induction false} AllMarkers(namespaces: seq<string>, n: nat)
    requires 1 <= n < |namespaces| && namespaces[1] == "dds_"
    requires forall i | 1 <= i < |namespaces| - 1 :: namespaces[i] == namespaces[i + 1]
    ensures forall i | 1 <= i <= n :: namespaces[i] == "dds_"
  {
    if n > 1 {
      AllMarkers(namespaces, n - 1);
      assert namespaces[n - 1] == namespaces[n - 1 + 1];
    }
  }

  lemma KeptIffAllMarkers(namespaces: seq<string>)
    requires |namespaces| > 1 && namespaces[1] == "dds_"
    ensures Kept(namespaces) == namespaces <==> Tidy(namespaces)
  {
    var kept := Kept(namespaces);
    assert kept == [namespaces[0]] + namespaces[2..] + ["dds_"];
    hide Kept;
    assert |kept| == |namespaces|;
    assert forall i | 1 <= i < |namespaces| :: kept[i] == if i + 1 < |namespaces| then namespaces[i + 1] else "dds_";
    if kept == namespaces {
      AllMarkers(namespaces, |namespaces| - 1);
    }
    if Tidy(namespaces) {
      assert forall j | 1 < j < |namespaces| :: namespaces[j] == "dds_";
    }
  }

  lemma {:induction false} KeptIffTidy(namespaces: seq<string>)
    requires namespaces != []
    ensures Kept(namespaces) == namespaces <==> Tidy(namespaces)
    decreases |namespaces|
  {
    if |namespaces| > 1 && namespaces[1] == "dds_" {
      KeptIffAllMarkers(namespaces);
    } else if |namespaces| > 1 {
      var rest := namespaces[1..];
      KeptIffTidy(rest);
      assert namespaces == [namespaces[0]] + rest;
      assert Kept(namespaces)[1..] == Kept(rest);
      if Tidy(rest) {
        forall i, j | 1 <= i < j < |namespaces| && namespaces[i] == "dds_" ensures namespaces[j] == "dds_" {
          assert rest[i - 1] == namespaces[i] && rest[j - 1] == namespaces[j];
        }
      }
      if Tidy(namespaces) {
        forall i, j | 1 <= i < j < |rest| && rest[i] == "dds_" ensures rest[j] == "dds_" {
          assert rest[i] == namespaces[i + 1] && rest[j] == namespaces[j + 1];
        }
      }
    }
  }

  lemma {:induction false} KeptAreParts(namespaces: seq<string>)
    requires AreParts(namespaces)
    ensures AreParts(Kept(namespaces))
    decreases |namespaces|
  {
    if |namespaces| > 1 && namespaces[1] != "dds_" {
      KeptAreParts(namespaces[1..]);
    }
  }

  /** What demangling makes of a generated name. */
  lemma DemangledIsKept(namespaces: seq<string>, name: string)
    requires AreParts(namespaces) && IsPart(name)
    ensures Demangled(DdsTypeName(namespaces, name)) == Join("/", Kept(namespaces) + [name])
    ensures AreParts(Kept(namespaces))
  {
    var parts, kept := namespaces + ["dds_", name + "_"], Kept(namespaces);
    assert AreParts(parts);
    UnmarkedJoin(parts);
    DroppedIsKept(namespaces, name + "_");
    KeptAreParts(namespaces);
    JoinAppends("::", kept, name, "_");
    var plain := Join("::", kept + [name]);
    assert WithoutUnderscore(plain + "_") == plain;
    SlashedJoin(kept + [name]);
  }

  /**
   Demangling a generated type name gives the ROS name back exactly when the type
   has a namespace and, after a namespace "dds_" that is not the first, only
   more of them follow.
   */
  lemma DemanglingRoundTrip(namespaces: seq<string>, name: string)
    requires AreParts(namespaces) && IsPart(name)
    ensures Demangled(DdsTypeName(namespaces, name)) == RosTypeName(namespaces, name)
       <==> namespaces != [] && Tidy(namespaces)
  {
    DemangledIsKept(namespaces, name);
    var kept := Kept(namespaces);
    if Join("/", kept + [name]) == Join("/", namespaces + [name]) {
      JoinInjective(kept + [name], namespaces + [name]);
      assert kept == (kept + [name])[..|kept|] && namespaces == (namespaces + [name])[..|namespaces|];
    }
    if namespaces != [] {
      KeptIffTidy(namespaces);
    }
  }

  lemma {:induction false} NothingDropped(parts: seq<string>)
    requires forall i | 1 <= i < |parts| - 1 :: parts[i] != "dds_"
    ensures Dropped(parts) == parts
  {
    if |parts| > 1 {
      assert |parts| > 2 ==> parts[1] != "dds_";
      forall i | 1 <= i < |parts[1..]| - 1 ensures parts[1..][i] != "dds_" {
        assert parts[1..][i] == parts[i + 1];
      }
      NothingDropped(parts[1..]);
      DroppedTail(parts);
      assert parts == [parts[0]] + parts[1..];
    }
  }

  /** The name of a type that was not generated is listed with slashes, if it has
      no `dds_` namespace to lose and no underscore at its end. */
  lemma OtherNames(parts: seq<string>)
    requires AreParts(parts) && forall i | 1 <= i < |parts| - 1 :: parts[i] != "dds_"
    requires Join("::", parts) != "" ==> Join("::", parts)[|Join("::", parts)| - 1] != '_'
    ensures Demangled(Join("::", parts)) == Join("/", parts)
  {
    hide Join, Slashed, Unmarked;
    NothingDropped(parts);
    UnmarkedJoin(parts);
    SlashedJoin(parts);
  }

  /** The name that the generator gives a type of a package. */
  lemma GeneratedName(package: string, kind: string, name: string)
    ensures DdsTypeName([package, kind], name) == package + "::" + kind + "::dds_::" + name + "_"
    ensures RosTypeName([package, kind], name) == package + "/" + kind + "/" + name
  {
    var parts := [package, kind, "dds_", name + "_"];
    assert [package, kind] + ["dds_", name + "_"] == parts;
    assert parts[1..] == [kind, "dds_", name + "_"] && parts[1..][1..] == ["dds_", name + "_"];
    assert ["dds_", name + "_"][1..] == [name + "_"];
    assert Join("::", ["dds_", name + "_"]) == "dds_" + "::" + (name + "_");
    assert Join("::", parts[1..]) == kind + "::" + ("dds_" + "::" + (name + "_"));
    assert Join("::", parts) == package + "::" + (kind + "::" + ("dds_" + "::" + (name + "_")));
    assert "::dds_::" == "::" + "dds_" + "::";
    assert package + "::" + kind + ("::" + "dds_" + "::") + name + "_"
        == package + "::" + (kind + "::" + ("dds_" + "::" + (name + "_")));
    assert [package, kind] + [name] == [package, kind, name];
    assert [package, kind, name][1..] == [kind, name] && [kind, name][1..] == [name];
    assert Join("/", [kind, name]) == kind + "/" + name;
    assert package + "/" + (kind + "/" + name) == package + "/" + kind + "/" + name;
  }

  function ServiceType(s: string): string {
    if EndsWith(s, "_Request") then s[..|s| - 8]
    else if EndsWith(s, "_Response") then s[..|s| - 9]
    else s
  }

  /** demangle_dds_service_type: at most one of the suffixes goes. */
  method DemangleDdsServiceType(ddsType: string) returns (result: string)
    ensures result == ServiceType(Demangled(ddsType))
  {
    result := DemangleDdsType(ddsType);
    var suffixes := ["_Request", "_Response"];
    assert suffixes[0] == "_Request" && suffixes[1] == "_Response";
    for i := 0 to 2
      invariant result == Demangled(ddsType)
      invariant forall k | 0 <= k < i :: !EndsWith(result, suffixes[k])
    {
      if EndsWith(result, suffixes[i]) {
        return result[..|result| - |suffixes[i]|];
      }
    }
  }

  lemma SuffixGoes(s: string)
    ensures ServiceType(s + "_Request") == s && ServiceType(s + "_Response") == s
    ensures !EndsWith(s, "_Request") && !EndsWith(s, "_Response") ==> ServiceType(s) == s
  {
    var request, response := s + "_Request", s + "_Response";
    assert request[|s|..] == "_Request";
    assert response[|s|..] == "_Response";
    assert response[|response| - 8] == 'R';
    assert response[|response| - 8..][0] == 'R' && "_Request"[0] == '_';
  }

  /** Both message types of a service are listed as the service type. */
  lemma ServiceTypeRoundTrip(namespaces: seq<string>, service: string)
    requires AreParts(namespaces) && IsPart(service) && namespaces != [] && Tidy(namespaces)
    ensures ServiceType(Demangled(DdsTypeName(namespaces, service + "_Request"))) == RosTypeName(namespaces, service)
    ensures ServiceType(Demangled(DdsTypeName(namespaces, service + "_Response"))) == RosTypeName(namespaces, service)
  {
    var ros := RosTypeName(namespaces, service);
    hide Demangled, ServiceType, DdsTypeName, Tidy;
    DemanglingRoundTrip(namespaces, service + "_Request");
    DemanglingRoundTrip(namespaces, service + "_Response");
    JoinAppends("/", namespaces, service, "_Request");
    JoinAppends("/", namespaces, service, "_Response");
    SuffixGoes(ros);
  }
}
