/**
 * A simplified stand-in for the `tldextract` library, which splits a host into sub-domain,
 * registrable label and public suffix using the Public Suffix List. The list is not modelled:
 * here the suffix is the last dot-separated label of a host that has at least two labels, and
 * a host with a single label is all domain and no suffix (as `tldextract` treats a host whose
 * ending is not a known suffix). The host is found the way `tldextract` finds it leniently:
 * drop a `scheme://` prefix, cut at the first `/`, `?` or `#`, keep what follows the last `@`,
 * cut at the first `:`, strip whitespace and trailing dots.
 */
module Registrable {
  import opened Text

  /** The registrable label (`domain`) and public suffix (`suffix`) of a host. */
  datatype Parts = Parts(domain: string, suffix: string)

  /** `s.partition(c)[0]`: everything before the first `c`. */
  function BeforeFirst(s: string, c: char): (r: string)
    ensures |r| <= |s| && r == s[..|r|]
    ensures c !in r
    ensures |r| < |s| ==> s[|r|] == c
    decreases |s|
  {
    if |s| == 0 || s[0] == c then "" else [s[0]] + BeforeFirst(s[1..], c)
  }

  /** `s.rpartition(c)[-1]`, also `s.split(c)[-1]`: everything after the last `c`. */
  function AfterLast(s: string, c: char): (r: string)
    ensures |r| <= |s| && r == s[|s| - |r|..]
    ensures c !in r
    ensures |r| < |s| ==> s[|s| - |r| - 1] == c
    decreases |s|
  {
    if |s| == 0 || s[|s| - 1] == c then "" else AfterLast(s[..|s| - 1], c) + [s[|s| - 1]]
  }

  lemma BeforeFirstAbsent(s: string, c: char)
    requires c !in s
    ensures BeforeFirst(s, c) == s
  {
  }

  lemma AfterLastAbsent(s: string, c: char)
    requires c !in s
    ensures AfterLast(s, c) == s
  {
  }

  lemma {:induction false} AfterLastSplit(a: string, c: char, b: string)
    requires c !in b
    ensures AfterLast(a + [c] + b, c) == b
    decreases |b|
  {
    var s := a + [c] + b;
    if |b| == 0 {
      assert s[|s| - 1] == c;
    } else {
      assert s[..|s| - 1] == a + [c] + b[..|b| - 1];
      assert s[|s| - 1] == b[|b| - 1];
      AfterLastSplit(a, c, b[..|b| - 1]);
      assert b[..|b| - 1] + [b[|b| - 1]] == b;
    }
  }

  predicate SchemeChar(c: char) {
    IsAlpha(c) || IsDigit(c) || c == '+' || c == '-' || c == '.'
  }

  function DoubleSlashFrom(s: string, i: nat): (k: int)
    ensures k == -1 || (i <= k && MatchAt(s, "//", k))
    ensures k == -1 ==> forall j: nat :: i <= j ==> !MatchAt(s, "//", j)
    ensures k >= 0 ==> forall j: nat :: i <= j < k ==> !MatchAt(s, "//", j)
    decreases |s| - i
  {
    if i + 2 > |s| then -1
    else if MatchAt(s, "//", i) then i
    else DoubleSlashFrom(s, i + 1)
  }

  /** The URL without its `scheme://` (or leading `//`). */
  function Schemeless(url: string): string {
    var k := DoubleSlashFrom(url, 0);
    if k == 0 then url[2..]
    else if k < 2 || url[k - 1] != ':' || exists j :: 0 <= j < k - 1 && !SchemeChar(url[j]) then url
    else url[k + 2..]
  }

  predicate IsDot(c: char) {
    c == '.'
  }

  /** The host part of a URL-like string. */
  function Host(url: string): string {
    var hostPort := AfterLast(Authority(url), '@');
    TrimEnd(Strip(BeforeFirst(hostPort, ':')), IsDot)
  }

  /** The last two labels of a host, or the only one. */
  function SplitHost(host: string): (p: Parts)
    ensures '.' !in p.domain && '.' !in p.suffix
  {
    var suffix := AfterLast(host, '.');
    if |suffix| == |host| then Parts(host, "")
    else Parts(AfterLast(host[..|host| - |suffix| - 1], '.'), suffix)
  }

  /** `tldextract.extract(url)`, simplified as described above. */
  function Extract(url: string): Parts {
    SplitHost(Host(url))
  }

  /** Characters that cut a host short, so that they never occur in a label. */
  predicate Separator(c: char) {
    c == '.' || c == '/' || c == '?' || c == '#' || c == '@' || c == ':'
  }

  predicate NoSeparator(s: string) {
    forall k :: 0 <= k < |s| ==> !Separator(s[k])
  }

  /** Characters that would end the host before the end of the string. */
  predicate HostChars(s: string) {
    forall k :: 0 <= k < |s| ==> s[k] != '/' && s[k] != '?' && s[k] != '#' && s[k] != '@' && s[k] != ':'
  }

  lemma NoSchemeInHostChars(s: string)
    requires HostChars(s)
    ensures Schemeless(s) == s
  {
    forall j: nat ensures !MatchAt(s, "//", j) {
      MatchAtSlice(s, "//", j);
      if j + 2 <= |s| {
        assert s[j] != '/';
      }
    }
  }

  /** A string made of host characters without surrounding whitespace is its own host, apart
      from trailing dots. */
  lemma HostOfHostChars(s: string)
    requires HostChars(s)
    requires |s| > 0 ==> !IsSpace(s[0]) && !IsSpace(s[|s| - 1])
    ensures Host(s) == TrimEnd(s, IsDot)
  {
    NoSchemeInHostChars(s);
    assert '/' !in s && '?' !in s && '#' !in s && '@' !in s && ':' !in s;
    BeforeFirstAbsent(s, '/');
    BeforeFirstAbsent(s, '?');
    BeforeFirstAbsent(s, '#');
    AfterLastAbsent(s, '@');
    BeforeFirstAbsent(s, ':');
    assert TrimEnd(s, IsSpace) == s;
  }

  lemma NoSeparatorNoDot(s: string)
    requires NoSeparator(s)
    ensures '.' !in s
  {
    forall k | 0 <= k < |s| ensures s[k] != '.' {
      assert !Separator(s[k]);
    }
  }

  lemma JoinedHostChars(domain: string, suffix: string)
    requires NoSeparator(domain) && NoSeparator(suffix)
    ensures HostChars(domain + "." + suffix)
  {
    var s := domain + "." + suffix;
    forall k | 0 <= k < |s|
      ensures s[k] != '/' && s[k] != '?' && s[k] != '#' && s[k] != '@' && s[k] != ':'
    {
      if k < |domain| {
        assert s[k] == domain[k] && !Separator(domain[k]);
      } else if k > |domain| {
        assert s[k] == suffix[k - |domain| - 1] && !Separator(suffix[k - |domain| - 1]);
      }
    }
  }

  /** Rejoining a label and a suffix as `f"{domain}.{suffix}"` and extracting again gives the
      same label and suffix back. */
  lemma ExtractJoined(domain: string, suffix: string)
    requires |domain| > 0 && NoSeparator(domain) && NoSeparator(suffix)
    requires !IsSpace(domain[0])
    requires |suffix| > 0 ==> !IsSpace(suffix[|suffix| - 1])
    ensures Extract(domain + "." + suffix) == Parts(domain, suffix)
  {
    var s := domain + "." + suffix;
    JoinedHostChars(domain, suffix);
    assert s[0] == domain[0];
    NoSeparatorNoDot(domain);
    NoSeparatorNoDot(suffix);
    if |suffix| == 0 {
      ExtractJoinedNoSuffix(domain, suffix);
    } else {
      assert s[|s| - 1] == suffix[|suffix| - 1];
      assert !Separator(suffix[|suffix| - 1]);
      ExtractJoinedSuffix(domain, suffix);
    }
  }

  lemma ExtractJoinedSuffix(domain: string, suffix: string)
    requires |domain| > 0 && '.' !in domain && !IsSpace(domain[0])
    requires |suffix| > 0 && '.' !in suffix && !IsSpace(suffix[|suffix| - 1])
    requires HostChars(domain + "." + suffix)
    ensures Extract(domain + "." + suffix) == Parts(domain, suffix)
  {
    var s := domain + "." + suffix;
    assert s[0] == domain[0] && s[|s| - 1] == suffix[|suffix| - 1];
    HostOfHostChars(s);
    assert Host(s) == s;
    SplitHostJoined(domain, suffix);
  }

  lemma SplitHostJoined(domain: string, suffix: string)
    requires '.' !in domain && |suffix| > 0 && '.' !in suffix
    ensures SplitHost(domain + "." + suffix) == Parts(domain, suffix)
  {
    var s := domain + "." + suffix;
    assert s == domain + ['.'] + suffix;
    AfterLastSplit(domain, '.', suffix);
    assert s[..|s| - |suffix| - 1] == domain;
    AfterLastAbsent(domain, '.');
  }

  lemma ExtractJoinedNoSuffix(domain: string, suffix: string)
    requires |domain| > 0 && '.' !in domain && !IsSpace(domain[0]) && suffix == ""
    requires HostChars(domain + "." + suffix)
    ensures Extract(domain + "." + suffix) == Parts(domain, suffix)
  {
    var s := domain + "." + suffix;
    assert s == domain + ".";
    assert s[0] == domain[0] && s[|s| - 1] == '.';
    HostOfHostChars(s);
    DropFinalDot(domain);
    AfterLastAbsent(domain, '.');
  }

  lemma DropFinalDot(domain: string)
    requires |domain| > 0 && '.' !in domain
    ensures TrimEnd(domain + ".", IsDot) == domain
  {
    var s := domain + ".";
    assert s[..|s| - 1] == domain;
    assert domain[|domain| - 1] != '.';
  }

  lemma SliceHostChars(s: string, i: nat, j: nat)
    requires HostChars(s) && i <= j <= |s|
    ensures HostChars(s[i..j])
  {
    assert forall k :: i <= k < j ==> s[i..j][k - i] == s[k];
  }

  lemma NoDotSlice(s: string, i: nat, j: nat)
    requires '.' !in s && i <= j <= |s|
    ensures '.' !in s[i..j]
  {
    assert forall k :: i <= k < j ==> s[i..j][k - i] == s[k];
  }

  /** The authority: everything before the path, query or fragment. */
  function Authority(url: string): (a: string)
    ensures '/' !in a && '?' !in a && '#' !in a
  {
    var a1 := BeforeFirst(Schemeless(url), '/');
    var a2 := BeforeFirst(a1, '?');
    var a3 := BeforeFirst(a2, '#');
    assert '/' !in a2 by { assert a2 == a1[..|a2|]; }
    assert '/' !in a3 && '?' !in a3 by { assert a3 == a2[..|a3|]; }
    a3
  }

  /** What lies between the user information and the port. */
  lemma HostnameChars(url: string)
    ensures HostChars(BeforeFirst(AfterLast(Authority(url), '@'), ':'))
  {
    var a := Authority(url);
    var hp := AfterLast(a, '@');
    var h := BeforeFirst(hp, ':');
    assert '/' !in hp && '?' !in hp && '#' !in hp by { assert hp == a[|a| - |hp|..]; }
    assert '/' !in h && '?' !in h && '#' !in h && '@' !in h by { assert h == hp[..|h|]; }
  }

  lemma TrimEndHostChars(s: string, drop: char -> bool)
    requires HostChars(s)
    ensures HostChars(TrimEnd(s, drop))
  {
    var r := TrimEnd(s, drop);
    SliceHostChars(s, 0, |r|);
    assert r == s[0..|r|];
  }

  lemma TrimStartHostChars(s: string, drop: char -> bool)
    requires HostChars(s)
    ensures HostChars(TrimStart(s, drop))
  {
    var r := TrimStart(s, drop);
    SliceHostChars(s, |s| - |r|, |s|);
    assert r == s[|s| - |r|..|s|];
  }

  lemma HostIsHostChars(url: string)
    ensures HostChars(Host(url))
  {
    var h := BeforeFirst(AfterLast(Authority(url), '@'), ':');
    HostnameChars(url);
    TrimEndHostChars(h, IsSpace);
    TrimStartHostChars(TrimEnd(h, IsSpace), IsSpace);
    TrimEndHostChars(Strip(h), IsDot);
  }

  lemma HostCharsNoDot(s: string)
    requires HostChars(s) && '.' !in s
    ensures NoSeparator(s)
  {
  }

  lemma AfterLastHostChars(s: string, c: char)
    requires HostChars(s)
    ensures HostChars(AfterLast(s, c))
  {
    var r := AfterLast(s, c);
    SliceHostChars(s, |s| - |r|, |s|);
    assert r == s[|s| - |r|..|s|];
  }

  lemma SplitHostNoSeparator(host: string)
    requires HostChars(host)
    ensures NoSeparator(SplitHost(host).domain) && NoSeparator(SplitHost(host).suffix)
  {
    var p := SplitHost(host);
    var suffix := AfterLast(host, '.');
    assert HostChars(p.suffix) by {
      AfterLastHostChars(host, '.');
    }
    assert HostChars(p.domain) by {
      if |suffix| < |host| {
        var rest := host[..|host| - |suffix| - 1];
        SliceHostChars(host, 0, |rest|);
        AfterLastHostChars(rest, '.');
      }
    }
    HostCharsNoDot(p.domain);
    HostCharsNoDot(p.suffix);
  }

  /** The label and the suffix of anything hold no dot and none of the characters that end a
      host. */
  lemma ExtractNoSeparator(url: string)
    ensures NoSeparator(Extract(url).domain) && NoSeparator(Extract(url).suffix)
  {
    HostIsHostChars(url);
    SplitHostNoSeparator(Host(url));
  }

  /** No whitespace at the outer ends of the label and the suffix, as is the case unless the
      host has whitespace next to a dot. */
  predicate TrimmedParts(p: Parts) {
    (|p.domain| > 0 ==> !IsSpace(p.domain[0])) && (|p.suffix| > 0 ==> !IsSpace(p.suffix[|p.suffix| - 1]))
  }

  /** Extracting from `"{domain}.{suffix}"` of an extraction repeats it. */
  lemma ExtractRejoined(url: string)
    requires Extract(url).domain != "" && TrimmedParts(Extract(url))
    ensures Extract(Extract(url).domain + "." + Extract(url).suffix) == Extract(url)
  {
    var p := Extract(url);
    ExtractNoSeparator(url);
    ExtractJoined(p.domain, p.suffix);
  }
}
