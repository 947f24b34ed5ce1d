/** The string operations both route compilers use, and domain names as label sequences. */
module Text {

  /** unicode.IsSpace. */
  predicate IsSpace(c: char) {
    var n := c as int;
    || 9 <= n <= 13 || n == 0x20 || n == 0x85 || n == 0xA0 || n == 0x1680
    || 0x2000 <= n <= 0x200A || n == 0x2028 || n == 0x2029 || n == 0x202F || n == 0x205F || n == 0x3000
  }

  function TrimLeft(s: string): string {
    if s != [] && IsSpace(s[0]) then TrimLeft(s[1..]) else s
  }

  function TrimRight(s: string): string {
    if s != [] && IsSpace(s[|s| - 1]) then TrimRight(s[..|s| - 1]) else s
  }

  function TrimSpace(s: string): string {
    TrimRight(TrimLeft(s))
  }

  predicate HasPrefix(s: string, p: string) {
    |p| <= |s| && s[..|p|] == p
  }

  predicate HasSuffix(s: string, p: string) {
    |p| <= |s| && s[|s| - |p|..] == p
  }

  lemma AffixesAre(s: string, p: string)
    ensures HasPrefix(s, p) <==> exists t :: s == p + t
    ensures HasSuffix(s, p) <==> exists t :: s == t + p
  {
    if HasPrefix(s, p) {
      assert s == p + s[|p|..];
    }
    if HasSuffix(s, p) {
      assert s == s[..|s| - |p|] + p;
    }
  }

  function TrimPrefix(s: string, p: string): string {
    if HasPrefix(s, p) then s[|p|..] else s
  }

  /** strings.ToLower on ASCII letters; other characters are left alone. */
  function LowerChar(c: char): char {
    if 'A' <= c <= 'Z' then (c as int + 32) as char else c
  }

  function ToLower(s: string): string {
    seq(|s|, i requires 0 <= i < |s| => LowerChar(s[i]))
  }

  const UPPER := "ABCDEFGHIJKLMNOPQRSTUVWXYZ"
  const LOWER := "abcdefghijklmnopqrstuvwxyz"

  /** Lowering takes each capital to the small letter at the same place of the alphabet, and nothing else anywhere. */
  lemma LowerIsAlphabetic(c: char)
    ensures forall i | 0 <= i < 26 && UPPER[i] == c :: LowerChar(c) == LOWER[i]
    ensures c !in UPPER ==> LowerChar(c) == c
  {
    var n := c as int - 'A' as int;
    if 0 <= n < 26 {
      assert UPPER[n] == c && LOWER[n] == LowerChar(c);
    }
  }

  /** Every spelling of a word by case is lowered to the same text. */
  lemma LowerIgnoresCase(a: string, b: string)
    requires |a| == |b|
    requires forall i | 0 <= i < |a| :: a[i] == b[i] || exists k | 0 <= k < 26 :: {a[i], b[i]} == {UPPER[k], LOWER[k]}
    ensures ToLower(a) == ToLower(b)
  {
    forall i | 0 <= i < |a| ensures LowerChar(a[i]) == LowerChar(b[i]) {
      LowerIsAlphabetic(a[i]);
      LowerIsAlphabetic(b[i]);
      if k :| 0 <= k < 26 && {a[i], b[i]} == {UPPER[k], LOWER[k]} {
        assert a[i] in {UPPER[k], LOWER[k]} && b[i] in {UPPER[k], LOWER[k]};
        SmallStaysSmall(k);
      }
    }
  }

  lemma SmallStaysSmall(k: nat)
    requires k < 26
    ensures LowerChar(LOWER[k]) == LOWER[k] && LowerChar(UPPER[k]) == LOWER[k]
  {
  }

  /** White space, character by character. */
  const SPACES := "\t\n\U{0B}\U{0C}\r \U{85}\U{A0}\U{1680}\U{2000}\U{2001}\U{2002}\U{2003}\U{2004}\U{2005}\U{2006}\U{2007}\U{2008}\U{2009}\U{200A}\U{2028}\U{2029}\U{202F}\U{205F}\U{3000}"

  predicate Blank(s: string) {
    forall c | c in s :: c in SPACES
  }

  /** No white space at either end. */
  predicate Trimmed(s: string) {
    s != "" ==> s[0] !in SPACES && s[|s| - 1] !in SPACES
  }

  lemma SpaceIsListed(c: char)
    ensures IsSpace(c) <==> c in SPACES
  {
  }

  lemma {:induction false} TrimLeftIs(pre: string, s: string)
    requires Blank(pre) && (s != "" ==> s[0] !in SPACES)
    ensures TrimLeft(pre + s) == s
  {
    if pre == "" {
      assert pre + s == s;
      if s != "" {
        SpaceIsListed(s[0]);
      }
    } else {
      SpaceIsListed(pre[0]);
      assert pre[0] in pre && (pre + s)[1..] == pre[1..] + s;
      TrimLeftIs(pre[1..], s);
    }
  }

  lemma {:induction false} TrimRightIs(s: string, post: string)
    requires Blank(post) && (s != "" ==> s[|s| - 1] !in SPACES)
    ensures TrimRight(s + post) == s
  {
    if post == "" {
      assert s + post == s;
      if s != "" {
        SpaceIsListed(s[|s| - 1]);
      }
    } else {
      var c := post[|post| - 1];
      SpaceIsListed(c);
      assert c in post && (s + post)[..|s + post| - 1] == s + post[..|post| - 1] && (s + post)[|s + post| - 1] == c;
      TrimRightIs(s, post[..|post| - 1]);
    }
  }

  /** Trimming takes off exactly the white space around a text. */
  lemma TrimSpaceIs(pre: string, s: string, post: string)
    requires Blank(pre) && Trimmed(s) && Blank(post)
    ensures TrimSpace(pre + s + post) == s
  {
    if s == "" {
      assert pre + s + post == pre + post + "";
      TrimLeftIs(pre + post, "");
    } else {
      assert pre + s + post == pre + (s + post);
      TrimLeftIs(pre, s + post);
      TrimRightIs(s, post);
    }
  }

  /** The dot-separated labels of a domain name; the empty name has one empty label. */
  function Labels(s: string): (labels: seq<string>)
    ensures |labels| >= 1
  {
    if s == [] then [""]
    else
      var rest := Labels(s[1..]);
      if s[0] == '.' then [""] + rest else [[s[0]] + rest[0]] + rest[1..]
  }

  function Join(labels: seq<string>): string
    requires |labels| >= 1
  {
    if |labels| == 1 then labels[0] else labels[0] + "." + Join(labels[1..])
  }

  predicate IsLabelSuffix(labels: seq<string>, suffix: seq<string>) {
    |suffix| <= |labels| && labels[|labels| - |suffix|..] == suffix
  }

  lemma {:induction false} JoinLabels(s: string)
    ensures Join(Labels(s)) == s
  {
    if s != [] {
      JoinLabels(s[1..]);
      var rest := Labels(s[1..]);
      if s[0] == '.' {
        assert Labels(s)[1..] == rest;
      } else {
        assert Labels(s)[1..] == rest[1..];
        assert [s[0]] + (rest[0] + "." + (if |rest| > 1 then Join(rest[1..]) else ""))
            == [s[0]] + rest[0] + "." + (if |rest| > 1 then Join(rest[1..]) else "");
      }
    }
  }

  lemma {:induction false} LabelsAppend(p: string, d: string)
    ensures Labels(p + "." + d) == Labels(p) + Labels(d)
  {
    var whole := p + "." + d;
    if p == [] {
      assert whole[1..] == d;
    } else {
      assert whole[1..] == p[1..] + "." + d;
      LabelsAppend(p[1..], d);
    }
  }

  /** A name with more than one label is its first label, a dot and the rest. */
  lemma {:induction false} SplitFirst(s: string) returns (rest: string)
    requires |Labels(s)| > 1
    ensures Labels(rest) == Labels(s)[1..] && |rest| < |s| && HasSuffix(s, "." + rest)
  {
    if s[0] == '.' {
      rest := s[1..];
      assert Labels(s)[1..] == Labels(rest);
    } else {
      rest := SplitFirst(s[1..]);
      assert s[|s| - |rest| - 1..] == s[1..][|s| - 1 - |rest| - 1..];
    }
  }

  /** The source's test "equal, or ends with a dot and the domain" is the label-suffix test, for all strings. */
  lemma {:induction false} SuffixTestIsLabelSuffix(host: string, domain: string)
    ensures host == domain || HasSuffix(host, "." + domain) <==> IsLabelSuffix(Labels(host), Labels(domain))
    decreases |host|
  {
    if HasSuffix(host, "." + domain) {
      var p := host[..|host| - |domain| - 1];
      assert host == p + "." + domain;
      LabelsAppend(p, domain);
    }
    if IsLabelSuffix(Labels(host), Labels(domain)) {
      if |Labels(host)| == |Labels(domain)| {
        assert Labels(host) == Labels(domain);
        JoinLabels(host);
        JoinLabels(domain);
      } else {
        var rest := SplitFirst(host);
        SuffixTestIsLabelSuffix(rest, domain);
        if rest != domain {
          assert host[|host| - |domain| - 1..] == host[|host| - |rest|..][|rest| - |domain| - 1..];
          assert host[|host| - |rest|..] == host[|host| - |rest| - 1..][1..];
        }
      }
    }
  }
}
