/**
 * The `createOrganization` server action (src/app/onboarding/actions.ts):
 * the name typed by the user becomes a URL slug through a chain of string
 * transforms, then the organisation row and the creator's admin membership
 * are inserted, in that order.
 *
 * JavaScript's Unicode `toLowerCase` is approximated over ASCII (see README);
 * `\s` and `trim` use JavaScript's whitespace set.
 */
module OrgSlug {

  /** JavaScript's WhiteSpace and LineTerminator characters (matched by `\s` and removed by `trim`). */
  predicate IsSpace(c: char) {
    || c == ' ' || c == '\t' || c == '\n' || c == '\U{000B}' || c == '\U{000C}' || c == '\r'
    || c == '\U{00A0}' || c == '\U{1680}' || ('\U{2000}' <= c <= '\U{200A}')
    || c == '\U{2028}' || c == '\U{2029}' || c == '\U{202F}' || c == '\U{205F}'
    || c == '\U{3000}' || c == '\U{FEFF}'
  }

  predicate IsUpper(c: char) { 'A' <= c <= 'Z' }
  predicate IsLowerOrDigit(c: char) { ('a' <= c <= 'z') || ('0' <= c <= '9') }

  /** `\w` without the `u` flag: ASCII letters, digits and '_'. */
  predicate IsWordChar(c: char) { IsUpper(c) || IsLowerOrDigit(c) || c == '_' }

  /** A character `[^\w\s-]` removes. */
  predicate Special(c: char) { !(IsWordChar(c) || IsSpace(c) || c == '-') }

  /** The class `[\s_-]` of the collapsing step. */
  predicate IsSeparator(c: char) { IsSpace(c) || c == '_' || c == '-' }

  function LowerChar(c: char): char {
    if IsUpper(c) then (c as int - 'A' as int + 'a' as int) as char else c
  }

  /** Step 1, `.toLowerCase()` (ASCII letters). */
  function Lower(s: string): (r: string)
    ensures |r| == |s|
  {
    if s == [] then [] else [LowerChar(s[0])] + Lower(s[1..])
  }

  function TrimStart(s: string): (r: string)
    ensures |r| <= |s|
    ensures r == [] || !IsSpace(r[0])
  {
    if s != [] && IsSpace(s[0]) then TrimStart(s[1..]) else s
  }

  function TrimEnd(s: string): (r: string)
    ensures |r| <= |s|
    ensures r == [] || !IsSpace(r[|r| - 1])
  {
    if s != [] && IsSpace(s[|s| - 1]) then TrimEnd(s[..|s| - 1]) else s
  }

  /** Step 2, `.trim()`. */
  function Trim(s: string): (r: string)
    ensures |r| <= |s|
    ensures r != [] ==> !IsSpace(r[|r| - 1])
  {
    TrimEnd(TrimStart(s))
  }

  /** Step 3, `.replace(/[^\w\s-]/g, "")`: drop every other character. */
  function StripSpecial(s: string): (r: string)
    ensures |r| <= |s|
    ensures forall i :: 0 <= i < |r| ==> !Special(r[i])
  {
    if s == [] then []
    else if IsWordChar(s[0]) || IsSpace(s[0]) || s[0] == '-' then [s[0]] + StripSpecial(s[1..])
    else StripSpecial(s[1..])
  }

  /** The rest of `s` after its leading run of separators. */
  function SkipSeparators(s: string): (r: string)
    ensures |r| <= |s|
    ensures r == [] || !IsSeparator(r[0])
  {
    if s != [] && IsSeparator(s[0]) then SkipSeparators(s[1..]) else s
  }

  /** Step 4, `.replace(/[\s_-]+/g, "-")`: each maximal run of separators becomes one '-'. */
  function Collapse(s: string): (r: string)
    ensures |r| <= |s|
    decreases |s|
  {
    if s == [] then []
    else if IsSeparator(s[0]) then "-" + Collapse(SkipSeparators(s[1..]))
    else [s[0]] + Collapse(s[1..])
  }

  function TrimLeadingDashes(s: string): string {
    if s != [] && s[0] == '-' then TrimLeadingDashes(s[1..]) else s
  }

  function TrimTrailingDashes(s: string): string {
    if s != [] && s[|s| - 1] == '-' then TrimTrailingDashes(s[..|s| - 1]) else s
  }

  /** Step 5, `.replace(/^-+|-+$/g, "")`. */
  function TrimDashes(s: string): (r: string)
    ensures |r| <= |s|
  {
    TrimLeadingDashesSuffix(s);
    TrimTrailingDashesPrefix(TrimLeadingDashes(s));
    TrimTrailingDashes(TrimLeadingDashes(s))
  }

  /** The whole pipeline of `createOrganization`. */
  function Slugify(name: string): (r: string)
    ensures |r| <= |name|
  {
    TrimDashes(Collapse(StripSpecial(Trim(Lower(name)))))
  }

  /** What a slug looks like: lower-case letters, digits and single inner dashes. */
  predicate IsSlug(s: string) {
    && (forall i :: 0 <= i < |s| ==> IsLowerOrDigit(s[i]) || s[i] == '-')
    && (s != [] ==> s[0] != '-' && s[|s| - 1] != '-')
    && (forall i :: 0 < i < |s| ==> !(s[i - 1] == '-' && s[i] == '-'))
  }

  // ---- the alphabet shrinks step by step ----

  /** Characters that may remain after lower-casing and stripping. */
  predicate Kept(c: char) { IsLowerOrDigit(c) || c == '_' || IsSpace(c) || c == '-' }

  /** Characters that may remain after collapsing. */
  predicate SlugChar(c: char) { IsLowerOrDigit(c) || c == '-' }

  predicate NoDoubleDash(s: string) {
    forall i :: 0 < i < |s| ==> !(s[i - 1] == '-' && s[i] == '-')
  }

  lemma {:induction false} LowerHasNoUpper(s: string)
    ensures |Lower(s)| == |s|
    ensures forall i :: 0 <= i < |s| ==> !IsUpper(Lower(s)[i])
  {
    if s != [] { LowerHasNoUpper(s[1..]); }
  }

  // ---- each trimming step keeps a contiguous part of its input ----

  lemma {:induction false} TrimStartSuffix(s: string)
    ensures |TrimStart(s)| <= |s| && TrimStart(s) == s[|s| - |TrimStart(s)|..]
  {
    if s != [] && IsSpace(s[0]) {
      TrimStartSuffix(s[1..]);
      assert s[1..][|s| - 1 - |TrimStart(s)|..] == s[|s| - |TrimStart(s)|..];
    }
  }

  lemma {:induction false} TrimEndPrefix(s: string)
    ensures |TrimEnd(s)| <= |s| && TrimEnd(s) == s[..|TrimEnd(s)|]
  {
    if s != [] && IsSpace(s[|s| - 1]) {
      TrimEndPrefix(s[..|s| - 1]);
      assert s[..|s| - 1][..|TrimEnd(s)|] == s[..|TrimEnd(s)|];
    }
  }

  lemma {:induction false} SkipSeparatorsSuffix(s: string)
    ensures SkipSeparators(s) == s[|s| - |SkipSeparators(s)|..]
  {
    if s != [] && IsSeparator(s[0]) {
      SkipSeparatorsSuffix(s[1..]);
      assert s[1..][|s| - 1 - |SkipSeparators(s)|..] == s[|s| - |SkipSeparators(s)|..];
    }
  }

  /** Dropping the leading dashes leaves a suffix that does not start with a dash. */
  lemma {:induction false} TrimLeadingDashesSuffix(s: string)
    ensures |TrimLeadingDashes(s)| <= |s|
    ensures TrimLeadingDashes(s) == s[|s| - |TrimLeadingDashes(s)|..]
    ensures TrimLeadingDashes(s) == [] || TrimLeadingDashes(s)[0] != '-'
  {
    if s != [] && s[0] == '-' {
      TrimLeadingDashesSuffix(s[1..]);
      assert s[1..][|s| - 1 - |TrimLeadingDashes(s)|..] == s[|s| - |TrimLeadingDashes(s)|..];
    }
  }

  /** Dropping the trailing dashes leaves a prefix that does not end with a dash. */
  lemma {:induction false} TrimTrailingDashesPrefix(s: string)
    ensures |TrimTrailingDashes(s)| <= |s|
    ensures TrimTrailingDashes(s) == s[..|TrimTrailingDashes(s)|]
    ensures TrimTrailingDashes(s) == [] || TrimTrailingDashes(s)[|TrimTrailingDashes(s)| - 1] != '-'
  {
    if s != [] && s[|s| - 1] == '-' {
      TrimTrailingDashesPrefix(s[..|s| - 1]);
      assert s[..|s| - 1][..|TrimTrailingDashes(s)|] == s[..|TrimTrailingDashes(s)|];
    }
  }

  /** Trimming keeps a contiguous part of the string, so it adds no character. */
  lemma TrimKeepsChars(s: string)
    ensures forall c :: c in Trim(s) ==> c in s
  {
    TrimStartSuffix(s);
    var k := |s| - |TrimStart(s)|;
    TrimEndPrefix(s[k..]);
    assert Trim(s) == s[k..][..|Trim(s)|];
  }

  lemma {:induction false} StripSpecialKeeps(s: string)
    requires forall c :: c in s ==> !IsUpper(c)
    ensures forall c :: c in StripSpecial(s) ==> Kept(c)
  {
    if s != [] {
      assert s[0] in s;
      assert forall c :: c in s[1..] ==> c in s;
      StripSpecialKeeps(s[1..]);
    }
  }

  /** A collapsed string starts with a dash for a leading separator, and with the first character otherwise. */
  lemma CollapseHead(s: string)
    requires s != []
    ensures Collapse(s) != []
    ensures Collapse(s)[0] == if IsSeparator(s[0]) then '-' else s[0]
  {
  }

  /** Collapsing leaves only slug characters and no two dashes in a row. */
  lemma {:induction false} CollapseShape(s: string)
    requires forall c :: c in s ==> Kept(c)
    ensures forall c :: c in Collapse(s) ==> SlugChar(c)
    ensures NoDoubleDash(Collapse(s))
    decreases |s|
  {
    if s != [] {
      if IsSeparator(s[0]) {
        var rest := SkipSeparators(s[1..]);
        SkipSeparatorsSuffix(s[1..]);
        assert forall c :: c in rest ==> c in s;
        CollapseShape(rest);
        var t := Collapse(rest);
        assert Collapse(s) == "-" + t;
        if t != [] {
          CollapseHead(rest);
          assert t[0] != '-';
        }
        forall i | 0 < i < |Collapse(s)|
          ensures !(Collapse(s)[i - 1] == '-' && Collapse(s)[i] == '-')
        {
          if i > 1 { assert Collapse(s)[i - 1] == t[i - 2] && Collapse(s)[i] == t[i - 1]; }
        }
      } else {
        assert forall c :: c in s[1..] ==> c in s;
        CollapseShape(s[1..]);
        var t := Collapse(s[1..]);
        assert s[0] in s;
        assert Collapse(s) == [s[0]] + t;
        forall i | 0 < i < |Collapse(s)|
          ensures !(Collapse(s)[i - 1] == '-' && Collapse(s)[i] == '-')
        {
          if i > 1 { assert Collapse(s)[i - 1] == t[i - 2] && Collapse(s)[i] == t[i - 1]; }
        }
      }
    }
  }

  /** Before collapsing, only lower-case letters, digits, '_', whitespace and '-' remain. */
  lemma StrippedKept(name: string)
    ensures forall c :: c in StripSpecial(Trim(Lower(name))) ==> Kept(c)
  {
    var lowered := Lower(name);
    LowerHasNoUpper(name);
    TrimKeepsChars(lowered);
    StripSpecialKeeps(Trim(lowered));
  }

  /** A contiguous part of a string keeps its alphabet and its lack of double dashes. */
  lemma SliceKeepsShape(s: string, lo: nat, hi: nat)
    requires lo <= hi <= |s|
    requires forall c :: c in s ==> SlugChar(c)
    requires NoDoubleDash(s)
    ensures forall i :: 0 <= i < hi - lo ==> SlugChar(s[lo..hi][i])
    ensures NoDoubleDash(s[lo..hi])
  {
    var t := s[lo..hi];
    forall i | 0 <= i < |t| ensures SlugChar(t[i]) {
      assert t[i] == s[lo + i];
      assert s[lo + i] in s;
    }
    forall i | 0 < i < |t| ensures !(t[i - 1] == '-' && t[i] == '-') {
      assert t[i - 1] == s[lo + i - 1] && t[i] == s[lo + i];
    }
  }

  /** Trimming the edge dashes of a collapsed string gives a slug. */
  lemma TrimDashesShape(collapsed: string)
    requires forall c :: c in collapsed ==> SlugChar(c)
    requires NoDoubleDash(collapsed)
    ensures IsSlug(TrimDashes(collapsed))
  {
    var lead := TrimLeadingDashes(collapsed);
    TrimLeadingDashesSuffix(collapsed);
    var k1 := |collapsed| - |lead|;
    var slug := TrimTrailingDashes(lead);
    TrimTrailingDashesPrefix(lead);
    var k2 := |slug|;
    assert lead == collapsed[k1..];
    assert slug == lead[..k2];
    assert lead[..k2] == collapsed[k1..k1 + k2];
    SliceKeepsShape(collapsed, k1, k1 + k2);
    assert forall i :: 0 <= i < |slug| ==> SlugChar(slug[i]);
    assert NoDoubleDash(slug);
    if slug != [] {
      assert slug[0] == lead[0];
    }
  }

  /** Every slug the pipeline produces is well formed: alphabet, no edge dash, no double dash. */
  lemma SlugifyIsSlug(name: string)
    ensures IsSlug(Slugify(name))
  {
    StrippedKept(name);
    CollapseShape(StripSpecial(Trim(Lower(name))));
    TrimDashesShape(Collapse(StripSpecial(Trim(Lower(name)))));
  }

  // ---- a slug is left unchanged ----

  lemma {:induction false} LowerFixes(s: string)
    requires forall i :: 0 <= i < |s| ==> !IsUpper(s[i])
    ensures Lower(s) == s
  {
    if s != [] { LowerFixes(s[1..]); }
  }

  /** A string of special characters only is emptied by the stripping step. */
  lemma {:induction false} StripSpecialDropsAll(s: string)
    requires forall i :: 0 <= i < |s| ==> Special(s[i])
    ensures StripSpecial(s) == []
  {
    if s != [] { StripSpecialDropsAll(s[1..]); }
  }

  /**
   * A name made only of special characters passes lower-casing and trimming
   * unchanged and is emptied by the stripping step: its slug is empty.
   */
  lemma SpecialOnlySlug(name: string)
    requires forall i :: 0 <= i < |name| ==> Special(name[i])
    ensures Slugify(name) == ""
  {
    LowerFixes(name);
    assert Trim(name) == name by {
      if name != [] {
        assert !IsSpace(name[0]) && !IsSpace(name[|name| - 1]);
      }
    }
    StripSpecialDropsAll(name);
  }

  lemma StripSpecialFixes(s: string)
    requires forall i :: 0 <= i < |s| ==> SlugChar(s[i])
    ensures StripSpecial(s) == s
  {
    if s != [] { StripSpecialFixes(s[1..]); }
  }

  lemma {:induction false} CollapseFixes(s: string)
    requires forall i :: 0 <= i < |s| ==> SlugChar(s[i])
    requires NoDoubleDash(s)
    ensures Collapse(s) == s
    decreases |s|
  {
    if s != [] {
      if s[0] == '-' {
        if |s| > 1 {
          assert !IsSeparator(s[1]);
          assert SkipSeparators(s[1..]) == s[1..];
        }
        CollapseFixes(s[1..]);
      } else {
        CollapseFixes(s[1..]);
      }
    }
  }

  /** Slugify leaves a slug unchanged, and only a slug: its fixed points are exactly the slugs. */
  /** Each step leaves a slug unchanged. */
  lemma SlugifyFixesSlugs(s: string)
    requires IsSlug(s)
    ensures Slugify(s) == s
  {
    LowerFixes(s);
    assert Lower(s) == s;
    assert TrimStart(s) == s && TrimEnd(s) == s;
    assert Trim(s) == s;
    StripSpecialFixes(s);
    CollapseFixes(s);
    assert TrimLeadingDashes(s) == s && TrimTrailingDashes(s) == s;
  }

  lemma SlugFixpointIff(s: string)
    ensures Slugify(s) == s <==> IsSlug(s)
  {
    if IsSlug(s) {
      SlugifyFixesSlugs(s);
    }
    SlugifyIsSlug(s);
  }

  // ---- evaluating the pipeline on a concrete name ----

  lemma {:induction false} LowerAt(s: string)
    ensures |Lower(s)| == |s|
    ensures forall i :: 0 <= i < |s| ==> Lower(s)[i] == LowerChar(s[i])
  {
    if s != [] { LowerAt(s[1..]); }
  }

  lemma {:induction false} StripSpecialKeepsKept(s: string)
    requires forall i :: 0 <= i < |s| ==> IsWordChar(s[i]) || IsSpace(s[i]) || s[i] == '-'
    ensures StripSpecial(s) == s
  {
    if s != [] { StripSpecialKeepsKept(s[1..]); }
  }

  /** A word without separators passes through collapsing unchanged. */
  lemma {:induction false} CollapseWord(w: string, t: string)
    requires forall i :: 0 <= i < |w| ==> !IsSeparator(w[i])
    ensures Collapse(w + t) == w + Collapse(t)
  {
    if w == [] {
      assert w + t == t;
    } else {
      assert (w + t)[0] == w[0] && (w + t)[1..] == w[1..] + t;
      CollapseWord(w[1..], t);
      assert w == [w[0]] + w[1..];
    }
  }

  /** A single separator before a word becomes one dash. */
  lemma CollapseSingleSeparator(c: char, t: string)
    requires IsSeparator(c)
    requires t != [] && !IsSeparator(t[0])
    ensures Collapse([c] + t) == "-" + Collapse(t)
  {
    assert ([c] + t)[1..] == t;
  }

  /** A word: non-empty and free of separators. */
  predicate Word(w: string) {
    w != [] && forall i :: 0 <= i < |w| ==> !IsSeparator(w[i])
  }

  /** Three words separated by single spaces are joined by single dashes. */
  lemma CollapseThreeWords(w1: string, w2: string, w3: string)
    requires Word(w1) && Word(w2) && Word(w3)
    ensures Collapse(w1 + ([' '] + (w2 + ([' '] + w3)))) == w1 + ("-" + (w2 + ("-" + w3)))
  {
    var t3 := [' '] + w3;
    var t2 := [' '] + (w2 + t3);
    CollapseWord(w3, []);
    assert w3 + [] == w3;
    CollapseSingleSeparator(' ', w3);
    assert Collapse(t3) == "-" + w3;
    CollapseWord(w2, t3);
    assert (w2 + t3)[0] == w2[0];
    CollapseSingleSeparator(' ', w2 + t3);
    assert Collapse(t2) == "-" + (w2 + ("-" + w3));
    CollapseWord(w1, t2);
  }

  /** Slugifying twice is slugifying once. */
  lemma SlugifyIdempotent(name: string)
    ensures Slugify(Slugify(name)) == Slugify(name)
  {
    SlugifyIsSlug(name);
    SlugFixpointIff(Slugify(name));
  }
}

module Onboarding {

  import opened Wrappers
  import OrgSlug

  datatype Organization = Organization(id: nat, name: string, slug: string)
  datatype Member = Member(userId: string, organizationId: nat, role: string)

  /** How the action ends: a redirect (Next.js throws to redirect), a silent return, or a thrown error. */
  datatype Outcome =
    | RedirectTo(path: string)
    | ReturnedWithoutInsert
    | Thrown(message: string)

  const OrgInsertMessage := "Impossible de créer l'association (Nom peut-être déjà pris ?)"
  const MemberInsertMessage := "Erreur lors de l'ajout du membre"

  /** The `organizations` and `members` tables, as far as this action touches them. */
  class Directory {
    var organizations: seq<Organization>
    var members: seq<Member>
    var nextId: nat

    /** Every organisation id was handed out, and every membership points at an existing organisation. */
    ghost predicate Valid()
      reads this
    {
      && (forall i :: 0 <= i < |organizations| ==> organizations[i].id < nextId)
      && (forall m :: m in members ==> exists o :: o in organizations && o.id == m.organizationId)
    }

    constructor ()
      ensures Valid() && organizations == [] && members == []
    {
      organizations, members, nextId := [], [], 0;
    }

    /**
     * `createOrganization`.  `user` is the signed-in user's id, `orgName` the
     * form field; `orgInsertRejected` and `memberInsertRejected` are the
     * database's answers to the two inserts.
     */
    method CreateOrganization(user: Option<string>, orgName: Option<string>,
                              orgInsertRejected: bool, memberInsertRejected: bool)
      returns (outcome: Outcome)
      requires Valid()
      modifies this
      ensures Valid()
      ensures user.None? ==>
                outcome == RedirectTo("/login") && unchanged(this)
      ensures user.Some? && (orgName.None? || orgName.value == "") ==>
                outcome == ReturnedWithoutInsert && unchanged(this)
      ensures user.Some? && orgName.Some? && orgName.value != "" ==>
                var org := Organization(old(nextId), orgName.value, OrgSlug.Slugify(orgName.value));
                if orgInsertRejected then
                  outcome == Thrown(OrgInsertMessage) && unchanged(this)
                else if memberInsertRejected then
                  && outcome == Thrown(MemberInsertMessage)
                  && organizations == old(organizations) + [org]
                  && members == old(members)
                else
                  && outcome == RedirectTo("/" + org.slug + "/budget")
                  && organizations == old(organizations) + [org]
                  && members == old(members) + [Member(user.value, org.id, "admin")]
    {
      if user.None? {
        return RedirectTo("/login");
      }
      if orgName.None? || orgName.value == "" {
        return ReturnedWithoutInsert;
      }
      var name := orgName.value;
      var slug := OrgSlug.Slugify(name);
      if orgInsertRejected {
        return Thrown(OrgInsertMessage);
      }
      var org := Organization(nextId, name, slug);
      organizations := organizations + [org];
      nextId := nextId + 1;
      if memberInsertRejected {
        return Thrown(MemberInsertMessage);
      }
      assert org in organizations;
      members := members + [Member(user.value, org.id, "admin")];
      outcome := RedirectTo("/" + slug + "/budget");
    }
  }

  // The source's example, one pipeline step at a time (strings passed as
  // parameters so that the solver works on them symbolically).

  lemma ExampleLower(name: string, lowered: string)
    requires name == "BDE ESIEE 2026" && lowered == "bde esiee 2026"
    ensures OrgSlug.Lower(name) == lowered
  {
    OrgSlug.LowerAt(name);
  }

  lemma ExampleTrimStrip(lowered: string)
    requires lowered == "bde esiee 2026"
    ensures OrgSlug.StripSpecial(OrgSlug.Trim(lowered)) == lowered
  {
    assert OrgSlug.Trim(lowered) == lowered;
    OrgSlug.StripSpecialKeepsKept(lowered);
  }

  lemma ExampleCollapse(lowered: string, slug: string)
    requires lowered == "bde esiee 2026" && slug == "bde-esiee-2026"
    ensures OrgSlug.Collapse(lowered) == slug
  {
    ExampleWords();
    ExampleSpaced(lowered);
    ExampleDashed(slug);
    OrgSlug.CollapseThreeWords("bde", "esiee", "2026");
  }

  lemma ExampleWords()
    ensures OrgSlug.Word("bde") && OrgSlug.Word("esiee") && OrgSlug.Word("2026")
  {
  }

  lemma ExampleSpaced(lowered: string)
    requires lowered == "bde esiee 2026"
    ensures lowered == "bde" + ([' '] + ("esiee" + ([' '] + "2026")))
  {
  }

  lemma ExampleDashed(slug: string)
    requires slug == "bde-esiee-2026"
    ensures slug == "bde" + ("-" + ("esiee" + ("-" + "2026")))
  {
  }

  lemma ExampleTrimDashes(slug: string)
    requires slug == "bde-esiee-2026"
    ensures OrgSlug.TrimDashes(slug) == slug
  {
  }

  /** The example of the source comment: "BDE ESIEE 2026" becomes "bde-esiee-2026". */
  lemma ExampleSlug()
    ensures OrgSlug.Slugify("BDE ESIEE 2026") == "bde-esiee-2026"
  {
    ExampleLower("BDE ESIEE 2026", "bde esiee 2026");
    ExampleTrimStrip("bde esiee 2026");
    ExampleCollapse("bde esiee 2026", "bde-esiee-2026");
    ExampleTrimDashes("bde-esiee-2026");
  }

  /**
   * A non-empty name made only of special characters is not rejected: the
   * organisation is created with the empty slug, and the action ends on
   * "//budget".
   */
  method SpecialCharactersOnlyGiveEmptySlug(dir: Directory, user: string, name: string)
    returns (outcome: Outcome)
    requires dir.Valid() && name != ""
    requires forall i :: 0 <= i < |name| ==> OrgSlug.Special(name[i])
    modifies dir
    ensures outcome == RedirectTo("//budget")
    ensures dir.organizations == old(dir.organizations) + [Organization(old(dir.nextId), name, "")]
  {
    OrgSlug.SpecialOnlySlug(name);
    assert "/" + OrgSlug.Slugify(name) + "/budget" == "//budget";
    outcome := dir.CreateOrganization(Some(user), Some(name), false, false);
  }
}
