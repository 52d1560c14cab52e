/**
 * lib/campus-config.js: the four VIT campuses, slug validation, and the mapping from a student's
 * email domain to the campus they may rate.
 */
module CampusConfig {
  import opened Wrappers
  import opened JsStrings

  /** A campus entry; `longLabel` is the field `label`, a reserved word in Dafny. */
  datatype Campus = Campus(slug: string, longLabel: string, shortLabel: string)

  /** `CAMPUSES`, in their display order. */
  const Campuses: seq<Campus> := [
    Campus("vit-ap", "AP Campus", "AP"),
    Campus("vit-v", "Vellore Campus", "Vellore"),
    Campus("vit-c", "Chennai Campus", "Chennai"),
    Campus("vit-b", "Bhopal Campus", "Bhopal")
  ]

  /** `CAMPUS_SLUGS = CAMPUSES.map((c) => c.slug)` */
  function SlugsOf(cs: seq<Campus>): (ss: seq<string>)
    ensures |ss| == |cs| && forall i :: 0 <= i < |cs| ==> ss[i] == cs[i].slug
  {
    if cs == [] then [] else [cs[0].slug] + SlugsOf(cs[1..])
  }

  const CampusSlugs: seq<string> := SlugsOf(Campuses)

  /** `CAMPUSES.find((c) => c.slug === slug) ?? null` over a list of campuses. */
  function Find(cs: seq<Campus>, slug: string): (r: Option<Campus>)
    ensures r.Some? <==> slug in SlugsOf(cs)
    ensures r.Some? ==> r.value in cs && r.value.slug == slug
  {
    if cs == [] then None
    else if cs[0].slug == slug then Some(cs[0])
    else Find(cs[1..], slug)
  }

  /** `getCampusBySlug(slug)`: the first campus with that slug, `None` for `null`. */
  function GetCampusBySlug(slug: string): Option<Campus> {
    Find(Campuses, slug)
  }

  /** `isValidCampus(slug)`: `CAMPUS_SLUGS.includes(slug)`. */
  predicate IsValidCampus(slug: string) {
    slug in CampusSlugs
  }

  /** The valid slugs are exactly the four campus slugs, and no two campuses share one. */
  lemma ValidCampuses(slug: string)
    ensures IsValidCampus(slug) <==> slug in {"vit-ap", "vit-v", "vit-c", "vit-b"}
    ensures forall i, j :: 0 <= i < j < |Campuses| ==> Campuses[i].slug != Campuses[j].slug
  {
    assert CampusSlugs == ["vit-ap", "vit-v", "vit-c", "vit-b"];
  }

  /**
   * `getCampusBySlug` returns the campus whose slug was asked for, and returns `null` exactly for
   * a slug that is not valid.
   */
  lemma GetCampusBySlugSpec(slug: string)
    ensures GetCampusBySlug(slug).None? <==> !IsValidCampus(slug)
    ensures GetCampusBySlug(slug).Some? ==> GetCampusBySlug(slug).value in Campuses && GetCampusBySlug(slug).value.slug == slug
  {
  }

  /** `(email.split("@")[1] || "")`: the text after the first "@", up to the next "@" if any. */
  function DomainPart(email: string): string {
    var parts := Split(email, '@');
    if |parts| > 1 then parts[1] else ""
  }

  /** Every part lower-cased. */
  function LowerAll(parts: seq<string>): (r: seq<string>)
    ensures |r| == |parts|
    ensures forall i :: 0 <= i < |parts| ==> r[i] == ToLower(parts[i])
  {
    if parts == [] then [] else [ToLower(parts[0])] + LowerAll(parts[1..])
  }

  /** Lower-casing commutes with splitting at "@", which is not a letter. */
  lemma {:induction false} SplitToLower(s: string)
    ensures Split(ToLower(s), '@') == LowerAll(Split(s, '@'))
  {
    if s != [] {
      var t := ToLower(s);
      assert t == [LowerChar(s[0])] + ToLower(s[1..]);
      assert t[1..] == ToLower(s[1..]);
      SplitToLower(s[1..]);
      var rest := Split(s[1..], '@');
      if s[0] == '@' {
        assert ([""] + rest)[1..] == rest;
      } else {
        var head := [s[0]] + rest[0];
        assert ToLower(head) == [t[0]] + ToLower(rest[0]);
        assert ([head] + rest[1..])[1..] == rest[1..];
        assert LowerAll(rest) == [ToLower(rest[0])] + LowerAll(rest[1..]);
      }
    }
  }

  lemma DomainPartToLower(email: string)
    ensures DomainPart(ToLower(email)) == ToLower(DomainPart(email))
  {
    SplitToLower(email);
  }

  /** `EMAIL_DOMAIN_TO_CAMPUS`: `None` is the `null` entry of the shared Vellore/Chennai domain. */
  const EmailDomainToCampus: map<string, Option<string>> := map[
    "vitapstudent.ac.in" := Some("vit-ap"),
    "vitstudent.ac.in" := None,
    "vitbhopal.ac.in" := Some("vit-b")
  ]

  const DualCampusEmailDomain := "vitstudent.ac.in"

  /** `DUAL_CAMPUS_SLUGS`: the campuses a user with the shared domain chooses between. */
  const DualCampusSlugs: seq<string> := ["vit-v", "vit-c"]

  /**
   * `getCampusSlugFromEmail(email)`: `null` for a missing or empty email; otherwise the campus
   * of the lower-cased domain, `null` for the shared domain and for unknown ones.
   */
  function CampusSlugFromEmail(email: Option<string>): Option<string> {
    if email.None? || email.value == "" then None
    else
      var domain := ToLower(DomainPart(email.value));
      if domain in EmailDomainToCampus then EmailDomainToCampus[domain] else None
  }

  /** `isDualCampusEmail(email)` */
  predicate IsDualCampusEmail(email: Option<string>) {
    email.Some? && email.value != "" && ToLower(DomainPart(email.value)) == DualCampusEmailDomain
  }

  /**
   * The campus an email maps to, by its lower-cased domain; every other domain, the shared one
   * included, gives `null`.
   */
  lemma CampusSlugFromEmailSpec(email: Option<string>)
    ensures email.None? || email == Some("") ==> CampusSlugFromEmail(email) == None
    ensures email.Some? && email.value != "" ==>
              var d := ToLower(DomainPart(email.value));
              && (d == "vitapstudent.ac.in" <==> CampusSlugFromEmail(email) == Some("vit-ap"))
              && (d == "vitbhopal.ac.in" <==> CampusSlugFromEmail(email) == Some("vit-b"))
    ensures CampusSlugFromEmail(email).Some? ==> CampusSlugFromEmail(email).value in {"vit-ap", "vit-b"}
    ensures CampusSlugFromEmail(email).Some? ==> IsValidCampus(CampusSlugFromEmail(email).value)
  {
    ValidCampuses("vit-ap");
    ValidCampuses("vit-b");
    if email.Some? && email.value != "" {
      DomainTable(ToLower(DomainPart(email.value)));
    }
  }

  /** The table maps exactly two domains to a campus, each to its own one. */
  lemma DomainTable(d: string)
    ensures d in EmailDomainToCampus && EmailDomainToCampus[d] == Some("vit-ap") <==> d == "vitapstudent.ac.in"
    ensures d in EmailDomainToCampus && EmailDomainToCampus[d] == Some("vit-b") <==> d == "vitbhopal.ac.in"
    ensures d in EmailDomainToCampus && EmailDomainToCampus[d].Some? ==> EmailDomainToCampus[d].value in {"vit-ap", "vit-b"}
  {
  }

  /** A dual-campus email never determines a campus on its own. */
  lemma DualCampusHasNoSlug(email: Option<string>)
    requires IsDualCampusEmail(email)
    ensures CampusSlugFromEmail(email).None?
  {
  }

  /**
   * Both functions look only at the lower-cased email: two emails that agree up to the case of
   * their letters get the same campus and the same dual-campus answer.
   */
  lemma EmailCaseInsensitive(e1: string, e2: string)
    requires ToLower(e1) == ToLower(e2)
    ensures CampusSlugFromEmail(Some(e1)) == CampusSlugFromEmail(Some(e2))
    ensures IsDualCampusEmail(Some(e1)) <==> IsDualCampusEmail(Some(e2))
  {
    DomainPartToLower(e1);
    DomainPartToLower(e2);
    assert |e1| == |ToLower(e1)| == |e2|;
  }

  /** Every slug offered to a dual-campus user is a valid campus. */
  lemma DualCampusSlugsValid()
    ensures forall s :: s in DualCampusSlugs ==> IsValidCampus(s) && GetCampusBySlug(s).Some?
  {
    ValidCampuses("vit-v");
    ValidCampuses("vit-c");
  }
}
