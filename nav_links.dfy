/**
 * The dashboard's section links and their "active" highlighting
 * (src/components/dashboard/nav-links.tsx).
 */
module NavLinks {

  import opened Strings

  datatype Link = Link(href: string, title: string)

  /** The four sections, in display order. */
  const Sections: seq<string> := ["audit", "closures", "members", "settings"]

  /** `links(orgSlug)`: one link per section, each pointing at "/<orgSlug>/<section>". */
  function Links(orgSlug: string): (r: seq<Link>)
    ensures |r| == |Sections|
    ensures forall i :: 0 <= i < |r| ==> r[i].href == "/" + orgSlug + "/" + Sections[i]
  {
    [ Link("/" + orgSlug + "/audit", "Audit"),
      Link("/" + orgSlug + "/closures", "Clôtures"),
      Link("/" + orgSlug + "/members", "Équipe"),
      Link("/" + orgSlug + "/settings", "Paramètres") ]
  }

  /** `pathname === href || pathname.startsWith(href + "/")`. */
  predicate IsActive(pathname: string, href: string)
    ensures IsActive(pathname, href) ==> |href| <= |pathname| && pathname[..|href|] == href
  {
    pathname == href || StartsWith(pathname, href + "/")
  }

  /** An active href agrees with the pathname at each of its positions. */
  lemma ActiveAgreesAt(pathname: string, href: string, k: nat)
    requires k < |href|
    ensures IsActive(pathname, href) ==> k < |pathname| && pathname[k] == href[k]
  {
    if IsActive(pathname, href) && pathname != href {
      assert (href + "/")[k] == href[k];
      assert pathname[..|href + "/"|][k] == pathname[k];
    }
  }

  /**
   * Two hrefs that differ at a position both of them reach cannot be active
   * for the same pathname.
   */
  lemma DifferingHrefsExclusive(pathname: string, a: string, b: string, k: nat)
    requires k < |a| && k < |b| && a[k] != b[k]
    ensures !(IsActive(pathname, a) && IsActive(pathname, b))
  {
    ActiveAgreesAt(pathname, a, k);
    ActiveAgreesAt(pathname, b, k);
  }

  /** For any pathname, at most one of the four section links is active. */
  lemma AtMostOneActive(orgSlug: string, pathname: string, i: nat, j: nat)
    requires i < 4 && j < 4 && i != j
    ensures !(IsActive(pathname, Links(orgSlug)[i].href) && IsActive(pathname, Links(orgSlug)[j].href))
  {
    var ls := Links(orgSlug);
    var k := |orgSlug| + 2;
    // every href is "/" + slug + "/" + section, and the four sections start with distinct letters
    forall n | 0 <= n < 4
      ensures k < |ls[n].href| && ls[n].href[k] == Sections[n][0]
    {
      assert ls[n].href == ("/" + orgSlug + "/") + Sections[n];
    }
    DifferingHrefsExclusive(pathname, ls[i].href, ls[j].href, k);
  }

  /** A sibling path that merely shares a prefix is not active: "/x/audit-log" against "/x/audit". */
  lemma SiblingPrefixNotActive()
    ensures !IsActive("/x/audit-log", Links("x")[0].href)
    ensures IsActive("/x/audit/2026", Links("x")[0].href)
  {
    assert "/x/audit-log"[..|"/x/audit/"|] != "/x/audit/" by {
      assert "/x/audit-log"[8] == '-';
    }
  }
}
