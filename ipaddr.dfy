/** Textual IP addresses as Go's `net.ParseIP` accepts them (it delegates to
    `netip.ParseAddr` and refuses addresses that carry a zone). */
module IpAddr {
  import opened Text
  import opened Base
  import Strconv

  /** One field of a dotted quad: 1 to 3 digits, no leading zero, at most 255. */
  predicate IsDecOctet(f: string)
  {
    1 <= |f| <= 3 && AllDigits(f) && (|f| == 1 || f[0] != '0') && Strconv.DigitsValue(f) <= 255
  }

  /** A dotted-quad IPv4 address. */
  predicate IsIPv4(s: string)
  {
    var fields := Split(s, '.');
    |fields| == 4 && forall i :: 0 <= i < 4 ==> IsDecOctet(fields[i])
  }

  predicate IsHexDigit(c: char) { IsDigit(c) || 'a' <= c <= 'f' || 'A' <= c <= 'F' }

  /** One colon-separated field of an IPv6 address: 1 to 4 hex digits. */
  predicate IsHexGroup(g: string) { 1 <= |g| <= 4 && forall i :: 0 <= i < |g| ==> IsHexDigit(g[i]) }

  /** Position of the first "::" in `s`, if any. */
  function FindEllipsis(s: string): (k: Option<nat>)
    ensures k.Some? ==> k.value + 1 < |s| && s[k.value] == ':' && s[k.value + 1] == ':'
    ensures k.Some? ==> forall j :: 0 <= j < k.value ==> !(s[j] == ':' && s[j + 1] == ':')
    ensures k.None? ==> forall j :: 0 <= j < |s| - 1 ==> !(s[j] == ':' && s[j + 1] == ':')
  {
    if |s| < 2 then None
    else if s[0] == ':' && s[1] == ':' then Some(0)
    else match FindEllipsis(s[1..])
      case None => None
      case Some(k) => Some(k + 1)
  }

  /** The number of 16-bit groups spelled by a run of colon-separated fields with
      no "::" in it; a final dotted quad, when `v4Tail` allows it, stands for two. */
  function GroupCount(s: string, v4Tail: bool): Option<nat>
  {
    if s == [] then Some(0)
    else
      var fields := Split(s, ':');
      if forall i :: 0 <= i < |fields| ==> IsHexGroup(fields[i]) then Some(|fields|)
      else if v4Tail && (forall i :: 0 <= i < |fields| - 1 ==> IsHexGroup(fields[i])) &&
              IsIPv4(fields[|fields| - 1])
      then Some(|fields| + 1)
      else None
  }

  /** An IPv6 address: eight groups, or fewer around a single "::" that stands for
      at least one zero group; an embedded dotted quad may only come last. */
  predicate IsIPv6(s: string)
  {
    match FindEllipsis(s)
    case None =>
      GroupCount(s, true) == Some(8)
    case Some(k) =>
      var left := GroupCount(s[..k], false);
      var right := GroupCount(s[k + 2..], true);
      left.Some? && right.Some? && left.value + right.value <= 7
  }

  /** iputil.IsIP: net.ParseIP accepts the text. */
  predicate IsIP(s: string) { IsIPv4(s) || IsIPv6(s) }

  /** Four decimal octets joined by dots form a dotted quad. */
  lemma DottedQuad(s: string, a: string, b: string, c: string, d: string)
    requires s == a + "." + b + "." + c + "." + d
    requires IsDecOctet(a) && IsDecOctet(b) && IsDecOctet(c) && IsDecOctet(d)
    ensures IsIPv4(s)
  {
    forall f | f in [a, b, c, d]
      ensures '.' !in f
    {
    }
    JoinFour(a, b, c, d, ".");
    SplitJoin([a, b, c, d], '.');
  }

  /** Every textual IP address holds a '.' or a ':'. */
  lemma IPHasSeparator(s: string)
    requires IsIP(s)
    ensures '.' in s || ':' in s
  {
    if !IsIPv4(s) {
      match FindEllipsis(s)
      case Some(k) =>
        assert s[k] == ':';
      case None =>
        assert |Split(s, ':')| >= 7;
    }
  }

  /** A dotted quad is made of digits and dots only: it holds no ':' and no '/'. */
  lemma IPv4OnlyDigitsAndDots(s: string, k: nat)
    requires IsIPv4(s) && k < |s|
    ensures IsDigit(s[k]) || s[k] == '.'
  {
    if s[k] != '.' {
      SplitCovers(s, '.', k);
      var fields := Split(s, '.');
      var i :| 0 <= i < |fields| && s[k] in fields[i];
      assert IsDecOctet(fields[i]);
    }
  }

  /** An IPv6 address holds ':' at two positions at least. */
  lemma IPv6HasTwoColons(s: string)
    requires IsIPv6(s)
    ensures exists i, j :: 0 <= i < j < |s| && s[i] == ':' && s[j] == ':'
  {
    match FindEllipsis(s)
    case Some(k) =>
      assert s[k] == ':' && s[k + 1] == ':';
    case None =>
      assert |Split(s, ':')| >= 7;
      SplitThree(s, ':');
  }
}
