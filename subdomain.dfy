/** `generateSubdomain`: the slug a tenant name is published under. */
module Subdomain {

  /** The longest slug. */
  const MaxLength: nat := 50

  predicate IsSlugAlnum(c: char)
  {
    'a' <= c <= 'z' || '0' <= c <= '9'
  }

  predicate IsSlugChar(c: char)
  {
    IsSlugAlnum(c) || c == '-'
  }

  predicate AllSlugChars(s: string)
  {
    forall i :: 0 <= i < |s| ==> IsSlugChar(s[i])
  }

  /** No two consecutive hyphens. */
  predicate NoDoubleDash(s: string)
  {
    forall i :: 0 <= i < |s| - 1 ==> !(s[i] == '-' && s[i + 1] == '-')
  }

  /** A slug that `generateSubdomain` could have produced without cutting inside it. */
  predicate IsCleanSlug(s: string)
  {
    && |s| <= MaxLength
    && AllSlugChars(s)
    && NoDoubleDash(s)
    && (s != [] ==> s[0] != '-' && s[|s| - 1] != '-')
  }

  /** `toLowerCase` on the ASCII letters. */
  function LowerChar(c: char): (d: char)
    ensures 'A' <= c <= 'Z' ==> 'a' <= d <= 'z'
    ensures !('A' <= c <= 'Z') ==> d == c
  {
    if 'A' <= c <= 'Z' then (c as int + 32) as char else c
  }

  /** Lower-casing, on ASCII letters. */
  function ToLower(s: string): (r: string)
    ensures |r| == |s|
  {
    seq(|s|, i requires 0 <= i < |s| => LowerChar(s[i]))
  }

  /** Every character other than a lower-case letter or a digit becomes a hyphen. */
  function DashNonAlnum(s: string): (r: string)
    ensures |r| == |s| && AllSlugChars(r)
  {
    seq(|s|, i requires 0 <= i < |s| => if IsSlugAlnum(s[i]) then s[i] else '-')
  }

  /** The characters of s other than hyphens, in order. */
  function WithoutDashes(s: string): string
  {
    if s == [] then []
    else (if s[0] == '-' then [] else [s[0]]) + WithoutDashes(s[1..])
  }

  /** Every run of hyphens shrinks to its last hyphen. */
  function CollapseDashes(s: string): (r: string)
    ensures |r| <= |s|
    ensures AllSlugChars(s) ==> AllSlugChars(r)
    ensures NoDoubleDash(r)
    ensures s != [] ==> r != [] && r[0] == s[0] && r[|r| - 1] == s[|s| - 1]
    decreases |s|
  {
    if |s| <= 1 then s
    else if s[0] == '-' && s[1] == '-' then CollapseDashes(s[1..])
    else [s[0]] + CollapseDashes(s[1..])
  }

  /** Collapsing touches hyphens only: every other character is kept, in order. */
  lemma {:induction false} CollapseDashesKeepsOthers(s: string)
    ensures WithoutDashes(CollapseDashes(s)) == WithoutDashes(s)
    decreases |s|
  {
    if |s| > 1 {
      CollapseDashesKeepsOthers(s[1..]);
      if !(s[0] == '-' && s[1] == '-') {
        var rest := CollapseDashes(s[1..]);
        assert ([s[0]] + rest)[1..] == rest;
      }
    }
  }

  /** The words of s: its maximal pieces without hyphens, in order, none empty. */
  function Words(s: string): (w: seq<string>)
    ensures forall i :: 0 <= i < |w| ==> w[i] != []
    ensures s != [] && s[0] != '-' ==> w != [] && w[0][0] == s[0]
    decreases |s|
  {
    if s == [] then []
    else if s[0] == '-' then Words(s[1..])
    else if |s| > 1 && s[1] != '-' then
      var rest := Words(s[1..]);
      [[s[0]] + rest[0]] + rest[1..]
    else [[s[0]]] + Words(s[1..])
  }

  /** Collapsing keeps every word: it changes only how many hyphens separate them. */
  lemma {:induction false} CollapseDashesKeepsWords(s: string)
    ensures Words(CollapseDashes(s)) == Words(s)
    decreases |s|
  {
    if |s| > 1 {
      CollapseDashesKeepsWords(s[1..]);
      if !(s[0] == '-' && s[1] == '-') {
        var rest := CollapseDashes(s[1..]);
        assert ([s[0]] + rest)[1..] == rest;
      }
    }
  }

  lemma NoDoubleDashTail(s: string)
    requires s != [] && NoDoubleDash(s)
    ensures NoDoubleDash(s[1..])
  {
    forall i | 0 <= i < |s[1..]| - 1 ensures !(s[1..][i] == '-' && s[1..][i + 1] == '-') {
      assert s[1..][i] == s[i + 1] && s[1..][i + 1] == s[i + 2];
    }
  }

  /** The tails of two hyphen-led texts with the same words and ends, without
      double hyphens, again have the same words and ends. */
  lemma DashHeadTails(a: string, b: string)
    requires NoDoubleDash(a) && NoDoubleDash(b) && Words(a) == Words(b)
    requires a != [] && b != [] && a[0] == b[0] == '-'
    ensures Words(a[1..]) == Words(b[1..])
    ensures a[1..] == [] <==> b[1..] == []
    ensures a[1..] != [] ==> a[1] == b[1]
  {
  }

  /** A one-letter text without double hyphens shares its words and ends only
      with itself. */
  lemma OneLetterWords(x: string, y: string)
    requires NoDoubleDash(y) && Words(x) == Words(y)
    requires |x| == 1 && x[0] != '-' && y != [] && y[0] == x[0] && y[|y| - 1] == x[0]
    ensures |y| == 1
  {
  }

  /** Two letter-led texts with the same words agree on whether a hyphen follows. */
  lemma LetterHeadSecond(a: string, b: string)
    requires Words(a) == Words(b)
    requires |a| > 1 && |b| > 1 && a[0] == b[0] != '-'
    ensures a[1] == '-' <==> b[1] == '-'
  {
  }

  /** The words of a letter-led text followed by a letter: its first letter
      starts the first word of the rest. */
  lemma LetterLetterWords(a: string)
    requires |a| > 1 && a[0] != '-' && a[1] != '-'
    ensures var r := Words(a[1..]);
            r != [] && Words(a)[0] == [a[0]] + r[0] && Words(a)[1..] == r[1..]
  {
  }

  /** The tails of two letter-led texts with the same words, both longer than one
      character, again have the same words and the same first character. */
  lemma LetterHeadTails(a: string, b: string)
    requires Words(a) == Words(b)
    requires |a| > 1 && |b| > 1 && a[0] == b[0] != '-'
    ensures Words(a[1..]) == Words(b[1..]) && a[1] == b[1]
  {
    LetterHeadSecond(a, b);
    var ra, rb := Words(a[1..]), Words(b[1..]);
    if a[1] != '-' {
      LetterLetterWords(a);
      LetterLetterWords(b);
      var w := Words(a);
      assert ra[0] == w[0][1..] == rb[0];
      assert ra == [ra[0]] + w[1..] && rb == [rb[0]] + w[1..];
    }
  }

  /** Text without double hyphens is fixed by its words and its first and last
      characters: these say where the single hyphens between words go. */
  lemma {:induction false} WordsDetermineText(a: string, b: string)
    requires NoDoubleDash(a) && NoDoubleDash(b) && Words(a) == Words(b)
    requires a == [] <==> b == []
    requires a != [] ==> a[0] == b[0] && a[|a| - 1] == b[|b| - 1]
    ensures a == b
    decreases |a|
  {
    if a == [] {
      return;
    }
    if a[0] == '-' {
      DashHeadTails(a, b);
    } else if |a| == 1 {
      OneLetterWords(a, b);
      return;
    } else if |b| == 1 {
      OneLetterWords(b, a);
    } else {
      LetterHeadTails(a, b);
    }
    NoDoubleDashTail(a);
    NoDoubleDashTail(b);
    WordsDetermineText(a[1..], b[1..]);
    assert a == [a[0]] + a[1..] && b == [b[0]] + b[1..];
  }

  /** The words and the two ends pin the collapsed text down: `/-+/g` turns each
      run of hyphens into exactly one hyphen and does nothing else. */
  lemma CollapseDashesExactly(s: string, r: string)
    requires NoDoubleDash(r) && Words(r) == Words(s)
    requires s == [] <==> r == []
    requires s != [] ==> r[0] == s[0] && r[|r| - 1] == s[|s| - 1]
    ensures r == CollapseDashes(s)
  {
    CollapseDashesKeepsWords(s);
    WordsDetermineText(r, CollapseDashes(s));
  }

  /** Drops one leading and one trailing hyphen. */
  function TrimDashes(s: string): (r: string)
    ensures var a := if s != [] && s[0] == '-' then 1 else 0;
            var b := if |s| > a && s[|s| - 1] == '-' then 1 else 0;
            r == s[a..|s| - b]
    ensures |r| <= |s|
    ensures AllSlugChars(s) ==> AllSlugChars(r)
    ensures NoDoubleDash(s) ==> NoDoubleDash(r)
    ensures NoDoubleDash(s) ==> r == [] || (r[0] != '-' && r[|r| - 1] != '-')
  {
    var a := if s != [] && s[0] == '-' then 1 else 0;
    var t := s[a..];
    var r := if t != [] && t[|t| - 1] == '-' then t[..|t| - 1] else t;
    assert forall i :: 0 <= i < |r| ==> r[i] == s[a + i];
    r
  }

  /** The first n characters. */
  function Truncate(s: string, n: nat): (r: string)
    ensures |r| <= n && (|s| <= n ==> r == s) && (|s| > n ==> r == s[..n])
    ensures AllSlugChars(s) ==> AllSlugChars(r)
    ensures NoDoubleDash(s) ==> NoDoubleDash(r)
  {
    if |s| <= n then s else s[..n]
  }

  /** The slug before the final cut to `MaxLength` characters. */
  function UntruncatedSlug(name: string): string
  {
    TrimDashes(CollapseDashes(DashNonAlnum(ToLower(name))))
  }

  /** `generateSubdomain(name)` */
  function GenerateSubdomain(name: string): (r: string)
    ensures |r| <= MaxLength && AllSlugChars(r) && NoDoubleDash(r)
    ensures r != [] ==> r[0] != '-'
    // a trailing hyphen is left only when the cut lands right after a hyphen
    ensures r != [] && r[|r| - 1] == '-' ==>
              |r| == MaxLength < |UntruncatedSlug(name)| && UntruncatedSlug(name)[MaxLength - 1] == '-'
  {
    var t := UntruncatedSlug(name);
    Truncate(t, MaxLength)
  }

  /** Collapsing changes nothing once no two hyphens are adjacent. */
  lemma {:induction false} CollapseDashesFixesNoDoubleDash(s: string)
    requires NoDoubleDash(s)
    ensures CollapseDashes(s) == s
    decreases |s|
  {
    if |s| > 1 {
      assert NoDoubleDash(s[1..]) by {
        forall i | 0 <= i < |s[1..]| - 1 ensures !(s[1..][i] == '-' && s[1..][i + 1] == '-') {
          assert s[1..][i] == s[i + 1] && s[1..][i + 1] == s[i + 2];
        }
      }
      CollapseDashesFixesNoDoubleDash(s[1..]);
      assert !(s[0] == '-' && s[1] == '-');
      assert [s[0]] + s[1..] == s;
    }
  }

  /** Every clean slug is its own subdomain. */
  lemma GenerateSubdomainFixesCleanSlugs(s: string)
    requires IsCleanSlug(s)
    ensures GenerateSubdomain(s) == s
  {
    SlugCharsUnchangedByDashing(s);
    CollapseDashesFixesNoDoubleDash(s);
    assert TrimDashes(s) == s;
  }

  lemma SlugCharsUnchangedByDashing(s: string)
    requires AllSlugChars(s)
    ensures DashNonAlnum(ToLower(s)) == s
  {
    var l := ToLower(s);
    forall i | 0 <= i < |s| ensures l[i] == s[i] {
      assert IsSlugChar(s[i]);
    }
    assert l == s;
    var d := DashNonAlnum(s);
    forall i | 0 <= i < |s| ensures d[i] == s[i] {
      assert IsSlugChar(s[i]);
    }
  }

  /** Re-slugging a slug that does not end in a hyphen changes nothing. */
  lemma GenerateSubdomainIdempotent(name: string)
    requires var r := GenerateSubdomain(name); r == [] || r[|r| - 1] != '-'
    ensures GenerateSubdomain(GenerateSubdomain(name)) == GenerateSubdomain(name)
  {
    GenerateSubdomainFixesCleanSlugs(GenerateSubdomain(name));
  }

  /** The worked example: "Acme Corp!" is published as "acme-corp". */
  lemma AcmeCorpExample()
    ensures GenerateSubdomain("Acme Corp!") == "acme-corp"
  {
    var l := ToLower("Acme Corp!");
    assert l == "acme corp!";
    var d := DashNonAlnum(l);
    assert d == "acme-corp-";
    assert CollapseDashes(d) == d by {
      assert NoDoubleDash(d);
      CollapseDashesFixesNoDoubleDash(d);
    }
    assert TrimDashes(d) == "acme-corp";
  }
}
