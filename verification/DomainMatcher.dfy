/**
 * Split-tunneling domain patterns: string suffix matching against matching label by label, whatever
 * strings.ToLower and strings.TrimSpace do.
 */
module DomainMatching {

  /** strings.ToLower and strings.TrimSpace. */
  datatype Text = Text(lower: string -> string, trim: string -> string) {
    function Normal(pattern: string): string {
      lower(trim(pattern))
    }
  }

  predicate IsWild(p: string) {
    |p| >= 2 && p[..2] == "*."
  }

  predicate HasSuffix(s: string, suffix: string) {
    |s| >= |suffix| && s[|s| - |suffix|..] == suffix
  }

  // ----- Labels -----

  /** strings.Split(s, "."). */
  function Labels(s: string): (labels: seq<string>)
    ensures |labels| >= 1
  {
    if s == "" then [""] else Prefixed(s[0], Labels(s[1..]))
  }

  /** The labels when a character is put in front. */
  function Prefixed(c: char, labels: seq<string>): (r: seq<string>)
    requires |labels| >= 1
    ensures |r| >= 1
  {
    if c == '.' then [""] + labels else [[c] + labels[0]] + labels[1..]
  }

  /** strings.Join(labels, "."). */
  function Join(labels: seq<string>): string
    requires labels != []
  {
    if |labels| == 1 then labels[0] else labels[0] + "." + Join(labels[1..])
  }

  /** A pattern matches label by label. */
  ghost predicate MatchesLabels(p: string, domain: string) {
    && p != ""
    && if |p| >= 2 && p[0] == '*' && p[1] == '.' then IsLabelSuffix(Labels(p[2..]), Labels(domain)) else p == domain
  }

  ghost predicate IsLabelSuffix(suffix: seq<string>, labels: seq<string>) {
    |suffix| <= |labels| && labels[|labels| - |suffix|..] == suffix
  }

  lemma {:induction false} JoinLabels(s: string)
    ensures Join(Labels(s)) == s
  {
    if s != "" {
      var rest := Labels(s[1..]);
      JoinLabels(s[1..]);
      if s[0] == '.' {
        assert ([""] + rest)[1..] == rest;
        assert s == "." + s[1..];
      } else {
        JoinFirst([s[0]], rest);
        assert s == [s[0]] + s[1..];
      }
    }
  }

  /** Labels splits at every dot: no label contains one, and joined by dots they give the string back. */
  lemma {:induction false} LabelsSplit(s: string)
    ensures Join(Labels(s)) == s
    ensures forall l <- Labels(s) :: '.' !in l
  {
    JoinLabels(s);
    if s != "" {
      LabelsSplit(s[1..]);
      var rest := Labels(s[1..]);
      assert rest[0] in rest && forall l <- rest[1..] :: l in rest;
      assert '.' !in rest[0];
    }
  }

  lemma JoinFirst(x: string, labels: seq<string>)
    requires labels != []
    ensures Join([x + labels[0]] + labels[1..]) == x + Join(labels)
  {
    var longer := [x + labels[0]] + labels[1..];
    assert longer[1..] == labels[1..];
    if |labels| > 1 {
      assert x + labels[0] + "." + Join(labels[1..]) == x + (labels[0] + "." + Join(labels[1..]));
    }
  }

  lemma {:induction false} JoinAppend(xs: seq<string>, ys: seq<string>)
    requires xs != [] && ys != []
    ensures Join(xs + ys) == Join(xs) + "." + Join(ys)
  {
    assert (xs + ys)[1..] == xs[1..] + ys;
    if |xs| == 1 {
      assert xs[1..] + ys == ys;
    } else {
      JoinAppend(xs[1..], ys);
    }
  }

  lemma {:induction false} LabelsOfDot(a: string, b: string)
    ensures Labels(a + "." + b) == Labels(a) + Labels(b)
  {
    var s := a + "." + b;
    if a == "" {
      assert s[1..] == b;
    } else {
      assert s[1..] == a[1..] + "." + b;
      LabelsOfDot(a[1..], b);
      PrefixedAppend(a[0], Labels(a[1..]), Labels(b));
    }
  }

  lemma {:induction false} PrefixedAppend(c: char, labels: seq<string>, tail: seq<string>)
    requires |labels| >= 1
    ensures Prefixed(c, labels + tail) == Prefixed(c, labels) + tail
  {
    assert (labels + tail)[1..] == labels[1..] + tail;
  }

  lemma SuffixHasLabels(s: string, domain: string)
    requires HasSuffix(domain, "." + s)
    ensures IsLabelSuffix(Labels(s), Labels(domain))
  {
    var front := domain[..|domain| - |s| - 1];
    assert domain == front + "." + s;
    LabelsOfDot(front, s);
  }

  lemma LabelsGiveSuffix(s: string, domain: string)
    requires IsLabelSuffix(Labels(s), Labels(domain)) && domain != s
    ensures HasSuffix(domain, "." + s)
  {
    var suffix, labels := Labels(s), Labels(domain);
    var front := labels[..|labels| - |suffix|];
    assert labels == front + suffix;
    JoinLabels(s);
    JoinLabels(domain);
    assert front == [] ==> labels == suffix;
    if front != [] {
      JoinAppend(front, suffix);
      SuffixOfConcat(Join(front), s);
    }
  }

  lemma SuffixOfConcat(front: string, rest: string)
    ensures HasSuffix(front + "." + rest, "." + rest)
  {
    assert front + "." + rest == front + ("." + rest);
  }

  /** A domain ends in the labels of s exactly when it is s or ends in "." followed by s, whatever
      empty labels there may be. */
  lemma LabelSuffixIsStringSuffix(s: string, domain: string)
    ensures IsLabelSuffix(Labels(s), Labels(domain)) <==> domain == s || HasSuffix(domain, "." + s)
  {
    if HasSuffix(domain, "." + s) {
      SuffixHasLabels(s, domain);
    }
    if IsLabelSuffix(Labels(s), Labels(domain)) && domain != s {
      LabelsGiveSuffix(s, domain);
    }
  }

  // ----- What patterns ask for -----

  ghost predicate AsksExact(p: string, d: string) {
    p != "" && d == if IsWild(p) then p[2..] else p
  }

  ghost predicate AsksSuffix(p: string, s: string) {
    IsWild(p) && s == p[1..]
  }

  lemma PatternMeaning(p: string, d: string)
    ensures MatchesLabels(p, d) <==> AsksExact(p, d) || exists s :: AsksSuffix(p, s) && HasSuffix(d, s)
  {
    assert IsWild(p) <==> |p| >= 2 && p[0] == '*' && p[1] == '.';
    if IsWild(p) {
      LabelSuffixIsStringSuffix(p[2..], d);
      assert p[1..] == "." + p[2..];
      assert AsksSuffix(p, p[1..]);
    }
  }

  /** These are exactly the domains and suffixes that the normalised patterns ask for. */
  ghost predicate Tables(exact: map<string, bool>, suffixes: seq<string>, patterns: seq<string>, text: Text) {
    && (forall d <- exact :: exact[d])
    && (forall d :: d in exact <==> exists p <- patterns :: AsksExact(text.Normal(p), d))
    && (forall d :: d in suffixes <==> exists p <- patterns :: AsksSuffix(text.Normal(p), d))
  }

  lemma TablesSnoc(exact: map<string, bool>, suffixes: seq<string>, patterns: seq<string>, text: Text,
                   pattern: string, exact': map<string, bool>, suffixes': seq<string>)
    requires Tables(exact, suffixes, patterns, text)
    requires var p := text.Normal(pattern);
             && exact' == (if p == "" then exact else exact[if IsWild(p) then p[2..] else p := true])
             && suffixes' == if IsWild(p) then suffixes + [p[1..]] else suffixes
    ensures Tables(exact', suffixes', patterns + [pattern], text)
  {
    var all := patterns + [pattern];
    forall d ensures d in exact' <==> exists p <- all :: AsksExact(text.Normal(p), d) {
      if d in exact {
        var p :| p in patterns && AsksExact(text.Normal(p), d);
        assert p in all;
      }
      assert AsksExact(text.Normal(pattern), d) ==> d in exact' && pattern in all;
    }
    forall d ensures d in suffixes' <==> exists p <- all :: AsksSuffix(text.Normal(p), d) {
      if d in suffixes {
        var p :| p in patterns && AsksSuffix(text.Normal(p), d);
        assert p in all;
      }
      assert AsksSuffix(text.Normal(pattern), d) ==> d in suffixes' && pattern in all;
    }
  }

  // ----- The matcher -----

  class DomainMatcher {
    const text: Text
    var exact: map<string, bool>
    var suffixes: seq<string>

    ghost predicate Represents(patterns: seq<string>)
      reads this
    {
      Tables(exact, suffixes, patterns, text)
    }

    constructor (patterns: seq<string>, text: Text)
      ensures Represents(patterns) && this.text == text
    {
      this.text := text;
      exact := map[];
      suffixes := [];
      new;
      for i := 0 to |patterns|
        invariant this.text == text && Represents(patterns[..i])
      {
        var p := text.Normal(patterns[i]);
        ghost var before := (exact, suffixes);
        assert patterns[..i + 1] == patterns[..i] + [patterns[i]];
        if p != "" {
          if IsWild(p) {
            suffixes := suffixes + [p[1..]];
            exact := exact[p[2..] := true];
          } else {
            exact := exact[p := true];
          }
        }
        TablesSnoc(before.0, before.1, patterns[..i], text, patterns[i], exact, suffixes);
      }
      assert patterns[..|patterns|] == patterns;
    }

    /** Matches holds exactly when some pattern matches the lowercased domain label by label. */
    method Matches(domain: string, ghost patterns: seq<string>) returns (r: bool)
      requires Represents(patterns)
      ensures r <==> exists p <- patterns :: MatchesLabels(text.Normal(p), text.lower(domain))
    {
      var d := text.lower(domain);
      forall p <- patterns
        ensures MatchesLabels(text.Normal(p), d) <==>
                  AsksExact(text.Normal(p), d) || exists s :: AsksSuffix(text.Normal(p), s) && HasSuffix(d, s)
      {
        PatternMeaning(text.Normal(p), d);
      }
      if d in exact && exact[d] {
        return true;
      }
      for i := 0 to |suffixes|
        invariant forall k | 0 <= k < i :: !HasSuffix(d, suffixes[k])
      {
        if HasSuffix(d, suffixes[i]) {
          assert suffixes[i] in suffixes;
          return true;
        }
      }
      forall p <- patterns ensures !MatchesLabels(text.Normal(p), d) {
        PatternMeaning(text.Normal(p), d);
        forall s | AsksSuffix(text.Normal(p), s) ensures !HasSuffix(d, s) {
          assert s in suffixes;
        }
      }
      return false;
    }
  }
}
