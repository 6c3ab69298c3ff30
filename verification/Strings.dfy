/** The string operations that name mangling uses. */
module Strings {
  import opened Options

  predicate StartsWith(s: string, prefix: string) {
    |prefix| <= |s| && s[..|prefix|] == prefix
  }

  predicate EndsWith(s: string, suffix: string) {
    |suffix| <= |s| && s[|s| - |suffix|..] == suffix
  }

  predicate MatchesAt(s: string, pattern: string, position: nat) {
    position <= |s| && StartsWith(s[position..], pattern)
  }

  /** std::string::find: the first match at or after `from`. */
  function Find(s: string, pattern: string, from: nat): (position: Option<nat>)
    requires from <= |s|
    ensures position.Some? ==> from <= position.value && MatchesAt(s, pattern, position.value)
    ensures forall p: nat | from <= p && (position.Some? ==> p < position.value) :: !MatchesAt(s, pattern, p)
    decreases |s| - from
  {
    if MatchesAt(s, pattern, from) then Some(from)
    else if from == |s| then None
    else Find(s, pattern, from + 1)
  }

  lemma StartMatches(s: string, prefix: string, i: nat)
    requires i < |prefix|
    ensures StartsWith(s, prefix) ==> |s| > i && s[i] == prefix[i]
  {
    if StartsWith(s, prefix) {
      assert s[..|prefix|][i] == s[i];
    }
  }

  lemma MatchInSuffix(s: string, pattern: string, from: nat, p: nat)
    requires from + p <= |s|
    ensures MatchesAt(s[from..], pattern, p) <==> MatchesAt(s, pattern, from + p)
  {
    assert s[from..][p..] == s[from + p..];
  }

  /** Python's separator.join(parts). */
  function Join(separator: string, parts: seq<string>): string {
    if parts == [] then ""
    else if |parts| == 1 then parts[0]
    else parts[0] + separator + Join(separator, parts[1..])
  }

  /** A non-empty part of a name, without the characters that separate parts. */
  predicate IsPart(s: string) {
    s != "" && forall c | c in s :: c != ':' && c != '/'
  }

  predicate AreParts(parts: seq<string>) {
    forall part | part in parts :: IsPart(part)
  }

  lemma {:induction false} JoinNonEmpty(separator: string, parts: seq<string>)
    requires parts != [] && AreParts(parts)
    ensures parts[0] != "" && StartsWith(Join(separator, parts), parts[0][..1])
  {
    assert parts[0] in parts;
  }

  lemma NoSlashWithin(s: string, part: string, i: nat)
    requires IsPart(part) && StartsWith(s, part)
    ensures i < |part| ==> s[i] != '/'
  {
    if i < |part| {
      assert s[i] == part[i] && part[i] in part;
    }
  }

  /** Joining with a slash can be undone. */
  lemma {:induction false} JoinInjective(a: seq<string>, b: seq<string>)
    requires AreParts(a) && AreParts(b) && a != [] && b != []
    requires Join("/", a) == Join("/", b)
    ensures a == b
  {
    assert a[0] in a && b[0] in b;
    assert AreParts(a[1..]) && AreParts(b[1..]);
    var s := Join("/", a);
    if |a| > 1 {
      assert s[|a[0]|] == '/';
      JoinNonEmpty("/", a[1..]);
    }
    if |b| > 1 {
      assert s[|b[0]|] == '/';
      JoinNonEmpty("/", b[1..]);
    }
    NoSlashWithin(s, a[0], |b[0]|);
    NoSlashWithin(s, b[0], |a[0]|);
    if |a| > 1 && |b| > 1 {
      assert s[|a[0]| + 1..] == Join("/", a[1..]);
      assert s[|b[0]| + 1..] == Join("/", b[1..]);
      JoinInjective(a[1..], b[1..]);
      assert a == [a[0]] + a[1..] && b == [b[0]] + b[1..];
    } else {
      assert a == [a[0]] && b == [b[0]];
    }
  }

  lemma {:induction false} JoinAppends(separator: string, parts: seq<string>, last: string, suffix: string)
    ensures Join(separator, parts + [last + suffix]) == Join(separator, parts + [last]) + suffix
  {
    if parts != [] {
      assert (parts + [last])[1..] == parts[1..] + [last];
      assert (parts + [last + suffix])[1..] == parts[1..] + [last + suffix];
      JoinAppends(separator, parts[1..], last, suffix);
    } else {
      assert [] + [last] == [last] && [] + [last + suffix] == [last + suffix];
    }
  }
}
