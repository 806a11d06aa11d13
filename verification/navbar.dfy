/** What the navigation bar derives from the wallet state and the current path. */
module Navbar {
  import opened Wrappers
  import opened JsString
  import Utils
  import opened Networks

  /** One entry of `NAV_LINKS`; the source's `label` field is `labelText` here, since `label` is a Dafny keyword. */
  datatype NavLink = NavLink(href: string, labelText: string)

  const NavLinks: seq<NavLink> := [
    NavLink("/", "Overview"),
    NavLink("/swap", "Swap"),
    NavLink("/pools", "Pools"),
    NavLink("/portfolio", "Portfolio")
  ]

  /** `displayAddress`: null for a falsy address, otherwise the address shortened with the default width. */
  function DisplayAddress(address: Option<string>): (r: Option<string>)
    ensures r.None? <==> Utils.IsFalsy(address)
    ensures r.Some? ==> r.value == Utils.ShortenAddressDefault(address)
  {
    if Utils.IsFalsy(address) then None
    else Some(Utils.ShortenAddressDefault(address))
  }

  /** A full 42-character address is displayed as its first six characters, "..." and its last four. */
  lemma DisplayAddressOfFullAddress(address: string)
    requires |address| == 42
    ensures DisplayAddress(Some(address)) == Some(address[..6] + "..." + address[38..])
  {
    Utils.ShortenShape(address, Utils.DefaultChars);
  }

  /** The label for a chain id that is in no known network. */
  function ChainLabel(chainId: int): (r: string)
    ensures |r| > 6 && r[..6] == "Chain "
  {
    "Chain " + IntToString(chainId)
  }

  /** The fallback label names its chain unambiguously: the id can be read back from it. */
  lemma ChainLabelRoundTrip(chainId: int)
    ensures IsIntegerText(ChainLabel(chainId)[6..])
    ensures ParseInt(ChainLabel(chainId)[6..]) == chainId
  {
    assert ChainLabel(chainId)[6..] == IntToString(chainId);
    IntToStringRoundTrip(chainId);
  }

  /**
   `displayNetwork`: "Unknown" for a falsy chain id (0), the name of the
   first network with that id, or "Chain <id>" when no network has it.
   */
  function DisplayNetwork(chainId: int, networks: seq<Network>): (r: string)
    ensures chainId == 0 ==> r == "Unknown"
    ensures chainId != 0 ==> forall i :: IsFirstWithId(networks, chainId, i) ==> r == networks[i].name
    ensures chainId != 0 && !HasId(networks, chainId) ==> r == ChainLabel(chainId)
  {
    if chainId == 0 then "Unknown"
    else
      match FindNetwork(networks, chainId)
      case Some(network) => network.name
      case None => ChainLabel(chainId)
  }

  /** A link is highlighted exactly when the path equals its href. */
  predicate IsActive(pathname: string, link: NavLink) {
    pathname == link.href
  }

  /** How many of `links` are highlighted for `pathname`. */
  function ActiveCount(pathname: string, links: seq<NavLink>): nat
    decreases |links|
  {
    if |links| == 0 then 0
    else (if IsActive(pathname, links[0]) then 1 else 0) + ActiveCount(pathname, links[1..])
  }

  predicate DistinctHrefs(links: seq<NavLink>) {
    forall i, j :: 0 <= i < j < |links| ==> links[i].href != links[j].href
  }

  predicate SomeLinkIs(pathname: string, links: seq<NavLink>) {
    exists i :: 0 <= i < |links| && links[i].href == pathname
  }

  /** With distinct hrefs at most one link is active, and one is exactly when the path is some link's href. */
  lemma {:induction false} AtMostOneActive(pathname: string, links: seq<NavLink>)
    requires DistinctHrefs(links)
    ensures ActiveCount(pathname, links) <= 1
    ensures ActiveCount(pathname, links) == 1 <==> SomeLinkIs(pathname, links)
    decreases |links|
  {
    if |links| > 0 {
      var rest := links[1..];
      AtMostOneActive(pathname, rest);
      if IsActive(pathname, links[0]) {
        forall k | 0 <= k < |rest|
          ensures rest[k].href != pathname
        {
          assert rest[k] == links[k + 1];
        }
      }
      if SomeLinkIs(pathname, rest) {
        var k :| 0 <= k < |rest| && rest[k].href == pathname;
        assert links[k + 1].href == pathname;
      }
      if SomeLinkIs(pathname, links) && !IsActive(pathname, links[0]) {
        var k :| 0 <= k < |links| && links[k].href == pathname;
        assert rest[k - 1].href == pathname;
      }
    }
  }

  /** The navbar's four links have distinct hrefs, so at most one is ever highlighted. */
  lemma NavLinksAtMostOneActive(pathname: string)
    ensures ActiveCount(pathname, NavLinks) <= 1
    ensures ActiveCount(pathname, NavLinks) == 1 <==> SomeLinkIs(pathname, NavLinks)
  {
    assert DistinctHrefs(NavLinks) by {
      forall i, j | 0 <= i < j < |NavLinks|
        ensures NavLinks[i].href != NavLinks[j].href
      {
        assert |NavLinks[i].href| != |NavLinks[j].href|;
      }
    }
    AtMostOneActive(pathname, NavLinks);
  }

  /** `isConnected && displayAddress`: the address badge is rendered only for a truthy label. */
  predicate ShowsAddressBadge(isConnected: bool, displayAddress: Option<string>) {
    isConnected && !Utils.IsFalsy(displayAddress)
  }

  /** The badge renders exactly when the wallet is connected and reports a non-empty address. */
  lemma AddressBadgeShown(isConnected: bool, address: Option<string>)
    ensures ShowsAddressBadge(isConnected, DisplayAddress(address)) <==> isConnected && !Utils.IsFalsy(address)
  {
  }
}
