/** `getNextAvailableSubnet`: the address block handed to the next tenant. */
module Subnet {
  import opened Common

  /** The block handed out when there is nothing to count on from. */
  const Seed: string := "172.100.0.0/24"

  /** The block `172.<octet>.0.0/24`, as the template literal prints it. */
  function SubnetFor(octet: nat): string
  {
    "172." + NatToString(octet) + ".0.0/24"
  }

  lemma SeedIsOctet100()
    ensures SubnetFor(100) == Seed
  {
    assert NatToString(100) == "100" by {
      assert NatToString(10) == "10";
    }
  }

  /** The length of the run of decimal digits that starts at position i. */
  function DigitRun(s: string, i: nat): (k: nat)
    requires i <= |s|
    ensures i + k <= |s| && AllDigits(s[i..i + k])
    ensures i + k < |s| ==> !IsDigit(s[i + k])
    decreases |s| - i
  {
    if i < |s| && IsDigit(s[i]) then
      var k := 1 + DigitRun(s, i + 1);
      assert s[i..i + k] == [s[i]] + s[i + 1..i + k];
      k
    else 0
  }

  /** Does `/172\.(\d+)\.0\.0\/24/` match at position p, and with which number?
      The greedy `\d+` takes the whole digit run, and backing off cannot help
      since a shorter run is followed by a digit, not by '.'. */
  function MatchAt(s: string, p: nat): Option<nat>
    requires p <= |s|
  {
    if p + 4 <= |s| && s[p..p + 4] == "172." then
      var k := DigitRun(s, p + 4);
      var e := p + 4 + k;
      if k > 0 && e + 7 <= |s| && s[e..e + 7] == ".0.0/24" then Some(DigitsValue(s[p + 4..e]))
      else None
    else None
  }

  /** The match on the latest subnet: the regular expression is not anchored, so the
      leftmost position where it matches decides; `parseInt(match[1])` is the number. */
  function FindMatch(s: string, p: nat): (r: Option<nat>)
    requires p <= |s|
    ensures r.Some? ==> exists q {:trigger MatchAt(s, q)} :: p <= q <= |s| && MatchAt(s, q) == r
    ensures r.None? ==> forall q {:trigger MatchAt(s, q)} :: p <= q <= |s| ==> MatchAt(s, q).None?
    decreases |s| - p
  {
    if MatchAt(s, p).Some? then MatchAt(s, p)
    else if p == |s| then None
    else FindMatch(s, p + 1)
  }

  /** The match found is the leftmost one: when q is the first position from p on
      where the pattern matches, `FindMatch` reports the match at q. */
  lemma {:induction false} FindMatchIsLeftmost(s: string, p: nat, q: nat)
    requires p <= q <= |s| && MatchAt(s, q).Some?
    requires forall q' :: p <= q' < q ==> MatchAt(s, q').None?
    ensures FindMatch(s, p) == MatchAt(s, q)
    decreases q - p
  {
    if p < q {
      FindMatchIsLeftmost(s, p + 1, q);
    }
  }

  /** `getNextAvailableSubnet`, given the subnet of the most recently created row
      that has one (None: the query returned no row). */
  function NextSubnet(latest: Option<string>): string
  {
    match latest
    case None => Seed
    case Some(last) =>
      match FindMatch(last, 0)
      case None => Seed
      case Some(octet) => SubnetFor(octet + 1)
  }

  /** A printed block is read back as its own second octet. */
  lemma {:induction false} MatchSubnetFor(octet: nat)
    ensures FindMatch(SubnetFor(octet), 0) == Some(octet)
  {
    var digits := NatToString(octet);
    var s := SubnetFor(octet);
    var e := 4 + |digits|;
    assert s[..4] == "172.";
    assert s[4..e] == digits;
    assert s[e..] == ".0.0/24";
    DigitRunOfDigits(s, 4, |digits|);
    DigitsValueOfNatToString(octet);
  }

  lemma DigitRunOfDigits(s: string, i: nat, k: nat)
    requires i + k <= |s| && AllDigits(s[i..i + k])
    requires i + k == |s| || !IsDigit(s[i + k])
    ensures DigitRun(s, i) == k
    decreases k
  {
    if k > 0 {
      assert IsDigit(s[i..i + k][0]);
      assert s[i + 1..i + k] == s[i..i + k][1..];
      DigitRunOfDigits(s, i + 1, k - 1);
    }
  }

  /** After `172.N.0.0/24` comes `172.(N+1).0.0/24`. */
  lemma NextSubnetIncrements(octet: nat)
    ensures NextSubnet(Some(SubnetFor(octet))) == SubnetFor(octet + 1)
  {
    MatchSubnetFor(octet);
  }

  /** Nothing caps the second octet at 255: the block after 172.255.0.0/24 is
      172.256.0.0/24, which is not an IPv4 block. */
  lemma NextSubnetPassesOctetLimit()
    ensures NextSubnet(Some(SubnetFor(255))) == SubnetFor(256)
  {
    NextSubnetIncrements(255);
  }

  /** A stored value that never matches the pattern falls back to the seed. */
  lemma NextSubnetFallsBackToSeed(last: string)
    requires forall q :: 0 <= q <= |last| ==> MatchAt(last, q).None?
    ensures NextSubnet(Some(last)) == Seed
  {
  }

  /** Distinct octets print distinct blocks. */
  lemma SubnetForInjective(a: nat, b: nat)
    requires SubnetFor(a) == SubnetFor(b)
    ensures a == b
  {
    MatchSubnetFor(a);
    MatchSubnetFor(b);
  }
}
