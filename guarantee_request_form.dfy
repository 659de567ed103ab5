/** The guarantee-request form (`CreateGuaranteeRequest`): the guarantor
    choices leave out the signed-in member, and a new request names the loan
    application. */
module GuaranteeRequestForm {

  import opened Wrappers
  import opened Seqs

  /** The fields of a guarantor profile the form reads. */
  datatype GuarantorProfile = GuarantorProfile(reference: string, member: string, memberName: string)

  /** `profile.member !== userMemberNo`. A session without a member number
      differs from every profile's member. */
  predicate NotApplicant(p: GuarantorProfile, userMemberNo: Option<string>)
  {
    userMemberNo.None? || p.member != userMemberNo.value
  }

  /** `filteredGuarantorProfiles`: every profile but the signed-in member's,
      each occurrence kept, in the original order. */
  function Selectable(profiles: seq<GuarantorProfile>, userMemberNo: Option<string>): (r: seq<GuarantorProfile>)
    ensures Subseq(r, profiles)
    ensures forall p :: p in r <==> p in profiles && NotApplicant(p, userMemberNo)
    ensures forall p :: multiset(r)[p] == if NotApplicant(p, userMemberNo) then multiset(profiles)[p] else 0
  {
    FilterCount(profiles, (p: GuarantorProfile) => NotApplicant(p, userMemberNo));
    Filter(profiles, (p: GuarantorProfile) => NotApplicant(p, userMemberNo))
  }

  /** `profiles.map((profile) => profile.member)`: one value per profile,
      and exactly the profiles' member numbers. */
  function Members(profiles: seq<GuarantorProfile>): (members: seq<string>)
    ensures |members| == |profiles|
    ensures forall g :: g in members <==> exists p :: p in profiles && p.member == g
  {
    var members := seq(|profiles|, (k: int) requires 0 <= k < |profiles| => profiles[k].member);
    assert forall k :: 0 <= k < |profiles| ==> members[k] == profiles[k].member && profiles[k] in profiles;
    assert forall p :: p in profiles ==> exists k :: 0 <= k < |profiles| && profiles[k] == p;
    members
  }

  /** The values of the guarantor select: the empty placeholder first, then
      one value per selectable profile, exactly the member numbers of the
      profiles that are not the signed-in member's. */
  function OptionValues(profiles: seq<GuarantorProfile>, userMemberNo: Option<string>): (values: seq<string>)
    ensures |values| == |Selectable(profiles, userMemberNo)| + 1 && values[0] == ""
    ensures forall g :: g in values[1..] <==> exists p :: p in profiles && NotApplicant(p, userMemberNo) && p.member == g
  {
    var values := [""] + Members(Selectable(profiles, userMemberNo));
    assert values[1..] == Members(Selectable(profiles, userMemberNo));
    values
  }

  /** A guarantor picked from the select, other than the placeholder, is the
      member of some profile, and never the signed-in member. */
  lemma ChosenGuarantorIsNotApplicant(profiles: seq<GuarantorProfile>, userMemberNo: Option<string>, g: string)
    requires g in OptionValues(profiles, userMemberNo) && g != ""
    ensures exists p :: p in profiles && p.member == g
    ensures userMemberNo.Some? ==> g != userMemberNo.value
  {
    var opts := OptionValues(profiles, userMemberNo);
    var k :| 0 <= k < |opts| && opts[k] == g;
    assert opts[k] == opts[1..][k - 1];
  }

  /** The request the form submits. */
  datatype RequestValues = RequestValues(guarantor: string, loanApplication: Option<string>)

  /** `initialValues`: a new request names the loan application it is for,
      and its guarantor is the select's placeholder, whatever the profiles and
      the session. */
  function InitialValues(applicationReference: Option<string>): (v: RequestValues)
    ensures v.loanApplication == applicationReference
    ensures forall profiles, userMemberNo :: v.guarantor == OptionValues(profiles, userMemberNo)[0]
  {
    RequestValues("", applicationReference)
  }
}
