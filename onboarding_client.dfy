/**
 * How the onboarding screen reads a member's organisation
 * (src/app/onboarding/onboarding-client.tsx): the to-one join `organizations`
 * can arrive as a single object, as an array or as null, and `getOrg`
 * collapses the three shapes.  The React state and rendering are not modelled.
 */
module OnboardingClient {

  import opened Wrappers

  datatype Org = Org(id: string, name: string, slug: string)

  /** The shapes the joined `organizations` field can take. */
  datatype OrgJoin = NullJoin | Single(org: Org) | Many(orgs: seq<Org>)

  datatype Membership = Membership(role: string, organizations: OrgJoin)

  /**
   * `getOrg(m)`: null for a null join, the object itself for a single object,
   * the first element of an array (nothing for an empty array).  JavaScript's
   * `null` and `undefined` are both `None`: every caller only tests truthiness.
   */
  function GetOrg(m: Membership): (r: Option<Org>)
    ensures m.organizations.NullJoin? ==> r == None
    ensures m.organizations.Single? ==> r == Some(m.organizations.org)
    ensures m.organizations.Many? ==>
              (r == None <==> m.organizations.orgs == [])
              && (r.Some? ==> r.value == m.organizations.orgs[0])
  {
    match m.organizations
    case NullJoin => None
    case Single(o) => Some(o)
    case Many(os) => if |os| > 0 then Some(os[0]) else None
  }

  /** `firstOrg`: absent without memberships, otherwise `getOrg` of the first one. */
  function FirstOrg(memberships: seq<Membership>): (r: Option<Org>)
    ensures memberships == [] ==> r == None
    ensures memberships != [] ==> r == GetOrg(memberships[0])
  {
    if |memberships| > 0 then GetOrg(memberships[0]) else None
  }

  /**
   * The organisation buttons of the list: one per membership for which
   * `getOrg` yields an organisation, in membership order.
   */
  function WithOrg(memberships: seq<Membership>): (r: seq<Org>)
    ensures |r| <= |memberships|
    ensures memberships != [] && GetOrg(memberships[0]).Some? ==> r != [] && r[0] == GetOrg(memberships[0]).value
  {
    if memberships == [] then []
    else
      var rest := WithOrg(memberships[1..]);
      match GetOrg(memberships[0])
      case Some(o) => [o] + rest
      case None => rest
  }

  /** The list is rendered only when there is more than one membership. */
  function ListedOrgs(memberships: seq<Membership>): (r: seq<Org>)
    ensures |memberships| <= 1 ==> r == []
    ensures |memberships| > 1 ==> r == WithOrg(memberships)
  {
    if |memberships| > 1 then WithOrg(memberships) else []
  }

  /** Number of memberships whose join yields an organisation. */
  function CountWithOrg(memberships: seq<Membership>): nat
  {
    if memberships == [] then 0
    else (if GetOrg(memberships[0]).Some? then 1 else 0) + CountWithOrg(memberships[1..])
  }

  /** The three shapes of the join agree: an object and an array headed by it give the same organisation. */
  lemma GetOrgShapesAgree(role: string, o: Org, more: seq<Org>)
    ensures GetOrg(Membership(role, Single(o))) == GetOrg(Membership(role, Many([o] + more))) == Some(o)
    ensures GetOrg(Membership(role, NullJoin)) == GetOrg(Membership(role, Many([]))) == None
  {
  }

  /** Listing a concatenation lists each part in turn: membership order is kept. */
  lemma {:induction false} WithOrgAppend(a: seq<Membership>, b: seq<Membership>)
    ensures WithOrg(a + b) == WithOrg(a) + WithOrg(b)
  {
    if a == [] {
      assert a + b == b;
    } else {
      assert (a + b)[1..] == a[1..] + b;
      WithOrgAppend(a[1..], b);
    }
  }

  /**
   * Exactly the memberships with an organisation get a button: one each, and
   * every button is `getOrg` of some membership.
   */
  lemma {:induction false} WithOrgExact(memberships: seq<Membership>)
    ensures |WithOrg(memberships)| == CountWithOrg(memberships) <= |memberships|
    ensures forall o :: o in WithOrg(memberships) ==>
              exists i :: 0 <= i < |memberships| && GetOrg(memberships[i]) == Some(o)
  {
    if memberships != [] {
      WithOrgExact(memberships[1..]);
      forall o | o in WithOrg(memberships)
        ensures exists i :: 0 <= i < |memberships| && GetOrg(memberships[i]) == Some(o)
      {
        if GetOrg(memberships[0]) == Some(o) {
          assert GetOrg(memberships[0]) == Some(o);
        } else {
          assert o in WithOrg(memberships[1..]);
          var i :| 0 <= i < |memberships[1..]| && GetOrg(memberships[1..][i]) == Some(o);
          assert GetOrg(memberships[i + 1]) == Some(o);
        }
      }
    }
  }

  /**
   * With more than one membership, the banner organisation, when there is
   * one, is the first one listed; with a single membership nothing is listed.
   */
  lemma FirstOrgIsFirstListed(memberships: seq<Membership>)
    requires FirstOrg(memberships).Some?
    ensures |memberships| > 1 ==> ListedOrgs(memberships) != [] && ListedOrgs(memberships)[0] == FirstOrg(memberships).value
    ensures |memberships| == 1 ==> ListedOrgs(memberships) == []
  {
  }
}
