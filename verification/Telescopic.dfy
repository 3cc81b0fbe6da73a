/** src/sepp_app/sepp_telescopic_fqdn_mapping.cpp: FQDNs of network functions
    (section 28.2 of 3GPP TS 23.003) against telescopic labels. */
module Telescopic {
  import opened Octets
  import opened Decimal

  datatype PlmnConfig = PlmnConfig(mcc: Text, mnc: Text)

  /** The model object the methods fill in. */
  datatype Mapping = Mapping(foreignFqdn: Option<Text>, telescopicLabel: Option<Text>, domain: Option<Text>)

  /** Throws stands for std::out_of_range from substr. */
  datatype Outcome = Mapped(mapping: Mapping) | NotMapped | Throws

  const SEPP_DOMAIN: Text := "sepp.5gc.mnc001.mcc001.3gppnetwork.org"
  const ALLOWED_NFS: set<Text> := {"nrf", "ausf", "smf", "amf", "udm", "pcf", "nssf"}
  const CORE: Text := ".5gc."
  const MCC_MARK: Text := ".mcc"
  const SUFFIX: Text := ".3gppnetwork.org"
  const PLMN: Text := "plmn"

  // ---------------------------------------------------------------- specification

  /** A two-digit MNC gets a leading zero. */
  function Pad(mnc: Text): Text {
    if |mnc| == 2 then "0" + mnc else mnc
  }

  predicate Names(partner: PlmnConfig, plmn: Text) {
    partner.mcc + partner.mnc == plmn || partner.mcc + Pad(partner.mnc) == plmn
  }

  /** The codes of the partner are the PLMN, with the MNC as it is or, when it has two digits, behind a zero. */
  predicate NamedBy(partner: PlmnConfig, plmn: Text) {
    plmn == partner.mcc + partner.mnc || (|partner.mnc| == 2 && plmn == partner.mcc + "0" + partner.mnc)
  }

  lemma PartnerIff(partners: seq<PlmnConfig>, plmn: Text)
    ensures IsPartner(partners, plmn) <==> exists i :: 0 <= i < |partners| && NamedBy(partners[i], plmn)
  {
    forall i | 0 <= i < |partners| ensures Names(partners[i], plmn) <==> NamedBy(partners[i], plmn) {
      assert partners[i].mcc + ("0" + partners[i].mnc) == partners[i].mcc + "0" + partners[i].mnc;
    }
  }

  predicate IsPartner(partners: seq<PlmnConfig>, plmn: Text) {
    exists i :: 0 <= i < |partners| && Names(partners[i], plmn)
  }

  predicate EndsWith(s: Text, tail: Text) {
    |s| >= |tail| && s[|s| - |tail|..] == tail
  }

  /** Network function and PLMN of what follows ".5gc.". The three characters before the MNC are skipped
      unseen; when ".mcc" starts within them the count of substr wraps around and takes the rest. */
  function ParsePlmn(remaining: Text): Option<Text> {
    match Find(remaining, MCC_MARK)
    case None => None
    case Some(p) =>
      var mnc := if p >= 3 then remaining[3..p] else remaining[3..];
      var mccStart := remaining[p + |MCC_MARK|..];
      if |mccStart| <= |SUFFIX| || !EndsWith(mccStart, SUFFIX) then None
      else Some(mccStart[..|mccStart| - |SUFFIX|] + mnc)
  }

  function ParseFqdn(fqdn: Text): Option<(Text, Text)> {
    match Find(fqdn, CORE)
    case None => None
    case Some(pos) =>
      match ParsePlmn(fqdn[pos + |CORE|..])
      case None => None
      case Some(plmn) => Some((fqdn[..pos], plmn))
  }

  function Label(nf: Text, plmn: Text): Text {
    nf + PLMN + plmn
  }

  function Fqdn(nf: Text, mnc: Text, mcc: Text): Text {
    nf + ".5gc.mnc" + mnc + ".mcc" + mcc + SUFFIX
  }

  function FqdnToMapping(partners: seq<PlmnConfig>, fqdn: Text, model: Mapping): Outcome {
    match ParseFqdn(fqdn)
    case None => NotMapped
    case Some(parsed) =>
      if parsed.0 !in ALLOWED_NFS || !IsPartner(partners, parsed.1) then NotMapped
      else Mapped(model.(telescopicLabel := Some(Label(parsed.0, parsed.1)), domain := Some(SEPP_DOMAIN)))
  }

  /** The FQDN a PLMN resolves to: three digits of MCC, the rest is the MNC. */
  function Resolved(nf: Text, plmn: Text): Text
    requires |plmn| >= 3
  {
    Fqdn(nf, Pad(plmn[3..]), plmn[..3])
  }

  function MappingToFqdn(partners: seq<PlmnConfig>, telescopicLabel: Text, model: Mapping): Outcome {
    match Find(telescopicLabel, PLMN)
    case None => NotMapped
    case Some(pos) =>
      var nf, plmn := telescopicLabel[..pos], telescopicLabel[pos + |PLMN|..];
      if nf !in ALLOWED_NFS || !IsPartner(partners, plmn) then NotMapped
      else if |plmn| < 3 then Throws
      else Mapped(Mapping(Some(Resolved(nf, plmn)), Some(telescopicLabel), Some(SEPP_DOMAIN)))
  }

  function GetMapping(partners: seq<PlmnConfig>, fqdn: Text, telescopicLabel: Text, model: Mapping): Outcome {
    if fqdn != "" && telescopicLabel == "" then FqdnToMapping(partners, fqdn, model)
    else if fqdn == "" && telescopicLabel != "" then MappingToFqdn(partners, telescopicLabel, model)
    else NotMapped
  }

  // ---------------------------------------------------------------- the class

  class TelescopicFqdnMapping {
    var partners: seq<PlmnConfig>

    constructor ()
      ensures partners == []
    {
      partners := [];
    }

    method SetRoamingPartners(p: seq<PlmnConfig>)
      modifies this
      ensures partners == p
    {
      partners := p;
    }

    method IsRoamingPartner(plmn: Text) returns (found: bool)
      ensures found <==> IsPartner(partners, plmn)
      ensures found <==> exists i :: 0 <= i < |partners| && NamedBy(partners[i], plmn)
    {
      for i := 0 to |partners|
        invariant forall j :: 0 <= j < i ==> !Names(partners[j], plmn)
      {
        var mcc, mnc := partners[i].mcc, partners[i].mnc;
        var padded := if |mnc| == 2 then "0" + mnc else mnc;
        if mcc + mnc == plmn || mcc + padded == plmn {
          assert Names(partners[i], plmn);
          PartnerIff(partners, plmn);
          return true;
        }
      }
      PartnerIff(partners, plmn);
      return false;
    }

    method ComputeFqdnToMapping(fqdn: Text, model: Mapping) returns (r: Outcome)
      ensures r == FqdnToMapping(partners, fqdn, model)
    {
      var parsed := ParseFqdn(fqdn);
      if parsed.None? {
        return NotMapped;
      }
      var (nf, plmn) := parsed.value;
      if nf !in ALLOWED_NFS {
        return NotMapped;
      }
      var partner := IsRoamingPartner(plmn);
      if !partner {
        return NotMapped;
      }
      r := Mapped(model.(telescopicLabel := Some(Label(nf, plmn)), domain := Some(SEPP_DOMAIN)));
    }

    method ComputeMappingToFqdn(telescopicLabel: Text, model: Mapping) returns (r: Outcome)
      ensures r == MappingToFqdn(partners, telescopicLabel, model)
    {
      var pos := Find(telescopicLabel, PLMN);
      if pos.None? {
        return NotMapped;
      }
      var nf, plmn := telescopicLabel[..pos.value], telescopicLabel[pos.value + |PLMN|..];
      if nf !in ALLOWED_NFS {
        return NotMapped;
      }
      var partner := IsRoamingPartner(plmn);
      if !partner {
        return NotMapped;
      }
      if |plmn| < 3 {
        return Throws;
      }
      var mcc, mnc := plmn[..3], plmn[3..];
      if |mnc| == 2 {
        mnc := "0" + mnc;
      }
      assert mnc == Pad(plmn[3..]);
      var resolved := nf + ".5gc.mnc" + mnc + ".mcc" + mcc + ".3gppnetwork.org";
      assert resolved == Resolved(nf, plmn);
      r := Mapped(Mapping(Some(resolved), Some(telescopicLabel), Some(SEPP_DOMAIN)));
    }

    method GetTelescopicMapping(fqdn: Text, telescopicLabel: Text, model: Mapping) returns (r: Outcome)
      ensures r == GetMapping(partners, fqdn, telescopicLabel, model)
    {
      if fqdn != "" && telescopicLabel == "" {
        r := ComputeFqdnToMapping(fqdn, model);
      } else if fqdn == "" && telescopicLabel != "" {
        r := ComputeMappingToFqdn(telescopicLabel, model);
      } else {
        r := NotMapped;
      }
    }
  }

  // ---------------------------------------------------------------- parsing what was printed

  lemma AllowedNfShape(nf: Text)
    requires nf in ALLOWED_NFS
    ensures '.' !in nf && 'l' !in nf
  {
  }

  /** The PLMN read from a printed FQDN: MCC followed by MNC, unless the MNC itself holds the mark of the MCC. */
  function Reread(mnc: Text, mcc: Text): Text {
    match Find(mnc, MCC_MARK)
    case None => mcc + mnc
    case Some(k) => mnc[k + |MCC_MARK|..] + MCC_MARK + mcc + mnc[..k]
  }

  /** The three letters before the MNC do not help to form the mark. */
  lemma MarkAfterLetters(mnc: Text)
    ensures Find(mnc, MCC_MARK).None? ==> Find("mnc" + mnc, MCC_MARK).None?
    ensures Find(mnc, MCC_MARK).Some? ==> Find("mnc" + mnc, MCC_MARK) == Some(Find(mnc, MCC_MARK).value + 3)
  {
    var s: Text := "mnc" + mnc;
    forall i: nat ensures OccursAt(s, MCC_MARK, i) <==> i >= 3 && OccursAt(mnc, MCC_MARK, i - 3) {
      MarkMoves(mnc, i);
    }
    if Find(mnc, MCC_MARK).Some? {
      FindIs(s, MCC_MARK, Find(mnc, MCC_MARK).value + 3);
    }
  }

  lemma MarkMoves(mnc: Text, i: nat)
    ensures OccursAt("mnc" + mnc, MCC_MARK, i) <==> i >= 3 && OccursAt(mnc, MCC_MARK, i - 3)
  {
    var s: Text := "mnc" + mnc;
    if i + 4 <= |s| {
      assert s[i..i + 4][0] == s[i];
      if i >= 3 {
        assert s[i..i + 4] == mnc[i - 3..i + 1];
      }
    }
  }

  /** What stands after the first mark does not move it. */
  lemma MarkStaysFirst(s: Text, rest: Text)
    requires Find(s, MCC_MARK).Some?
    ensures Find(s + rest, MCC_MARK) == Find(s, MCC_MARK)
  {
    var k := Find(s, MCC_MARK).value;
    assert (s + rest)[k..k + 4] == s[k..k + 4];
    forall i | 0 <= i < k ensures !OccursAt(s + rest, MCC_MARK, i) {
      assert (s + rest)[i..i + 4] == s[i..i + 4];
      assert !OccursAt(s, MCC_MARK, i);
    }
    FindIs(s + rest, MCC_MARK, k);
  }

  lemma SuffixOf(mcc: Text)
    requires mcc != ""
    ensures EndsWith(mcc + SUFFIX, SUFFIX) && |mcc + SUFFIX| > |SUFFIX|
    ensures (mcc + SUFFIX)[..|mcc + SUFFIX| - |SUFFIX|] == mcc
  {
  }

  /** The parser on a text whose first mark stands at position k + 3. */
  lemma ParsePlmnAt(front: Text, mcc: Text, k: nat)
    requires mcc != "" && |front| == k + 3 && Find(front + MCC_MARK + (mcc + SUFFIX), MCC_MARK) == Some(k + 3)
    ensures ParsePlmn(front + MCC_MARK + (mcc + SUFFIX)) == Some(mcc + front[3..])
  {
    var remaining := front + MCC_MARK + (mcc + SUFFIX);
    assert remaining[3..k + 3] == front[3..];
    assert remaining[k + 3 + |MCC_MARK|..] == mcc + SUFFIX;
    SuffixOf(mcc);
  }

  lemma ParsePlmnWithoutMark(mnc: Text, mcc: Text)
    requires mcc != "" && Find(mnc, MCC_MARK).None?
    ensures ParsePlmn("mnc" + mnc + MCC_MARK + (mcc + SUFFIX)) == Some(mcc + mnc)
  {
    var front: Text := "mnc" + mnc;
    MarkAfterLetters(mnc);
    FindFirstPut(front, MCC_MARK, mcc + SUFFIX);
    ParsePlmnAt(front, mcc, |mnc|);
    assert front[3..] == mnc;
  }

  lemma ParsePlmnWithMark(mnc: Text, mcc: Text, k: nat)
    requires mcc != "" && Find(mnc, MCC_MARK) == Some(k)
    ensures ParsePlmn("mnc" + mnc + MCC_MARK + (mcc + SUFFIX))
         == Some(mnc[k + |MCC_MARK|..] + MCC_MARK + mcc + mnc[..k])
  {
    MarkAfterLetters(mnc);
    MarkStaysFirst("mnc" + mnc, MCC_MARK + (mcc + SUFFIX));
    SplitAtMark(mnc, mcc, k);
    ParsePlmnAt("mnc" + mnc[..k], mnc[k + |MCC_MARK|..] + MCC_MARK + mcc, k);
    assert ("mnc" + mnc[..k])[3..] == mnc[..k];
  }

  lemma ParsePlmnOfPrinted(mnc: Text, mcc: Text)
    requires mcc != ""
    ensures ParsePlmn("mnc" + mnc + MCC_MARK + (mcc + SUFFIX)) == Some(Reread(mnc, mcc))
  {
    match Find(mnc, MCC_MARK)
    case None => ParsePlmnWithoutMark(mnc, mcc);
    case Some(k) => ParsePlmnWithMark(mnc, mcc, k);
  }

  lemma SplitAtMark(mnc: Text, mcc: Text, k: nat)
    requires OccursAt(mnc, MCC_MARK, k)
    ensures "mnc" + mnc + (MCC_MARK + (mcc + SUFFIX)) == "mnc" + mnc + MCC_MARK + (mcc + SUFFIX)
         == "mnc" + mnc[..k] + MCC_MARK + (mnc[k + |MCC_MARK|..] + MCC_MARK + mcc + SUFFIX)
  {
    assert mnc == mnc[..k] + MCC_MARK + mnc[k + |MCC_MARK|..];
  }

  lemma FqdnParts(nf: Text, mnc: Text, mcc: Text)
    ensures Fqdn(nf, mnc, mcc) == nf + CORE + ("mnc" + mnc + MCC_MARK + (mcc + SUFFIX))
  {
    assert ".5gc.mnc" == CORE + "mnc";
  }

  /** Parsing a printed FQDN gives its network function and its PLMN. */
  lemma ParseOfPrinted(nf: Text, mnc: Text, mcc: Text)
    requires '.' !in nf && mcc != ""
    ensures ParseFqdn(Fqdn(nf, mnc, mcc)) == Some((nf, Reread(mnc, mcc)))
  {
    var rest := "mnc" + mnc + MCC_MARK + (mcc + SUFFIX);
    var fqdn := Fqdn(nf, mnc, mcc);
    FqdnParts(nf, mnc, mcc);
    FindAtFirstChar(nf, CORE, rest);
    assert fqdn[..|nf|] == nf && fqdn[|nf| + |CORE|..] == rest;
    ParsePlmnOfPrinted(mnc, mcc);
  }

  lemma LabelParts(nf: Text, plmn: Text)
    requires nf in ALLOWED_NFS
    ensures Find(Label(nf, plmn), PLMN) == Some(|nf|)
    ensures Label(nf, plmn)[..|nf|] == nf && Label(nf, plmn)[|nf| + |PLMN|..] == plmn
  {
    AllowedNfShape(nf);
    FindAfterPrefix(nf, PLMN, plmn);
  }

  // ---------------------------------------------------------------- main results

  /** What every FQDN of section 28.2 of 3GPP TS 23.003 for an allowed network function is, its codes being
      digits: an MCC of three characters and an MNC without the mark of the MCC. */
  predicate WellFormed(nf: Text, mcc: Text, mnc: Text) {
    nf in ALLOWED_NFS && |mcc| == 3 && Find(mnc, MCC_MARK).None?
  }

  lemma NoMarkInDigits(mnc: Text)
    requires AllDigits(mnc)
    ensures Find(mnc, MCC_MARK).None?
  {
    forall i: nat ensures !OccursAt(mnc, MCC_MARK, i) {
      if i + 4 <= |mnc| {
        assert mnc[i..i + 4][0] == mnc[i];
      }
    }
  }

  lemma PaddingAddsNoMark(mnc: Text)
    ensures Find(Pad(mnc), MCC_MARK) == Find(mnc, MCC_MARK)
  {
  }

  lemma LabelOfFqdn(partners: seq<PlmnConfig>, nf: Text, mcc: Text, mnc: Text, model: Mapping)
    requires nf in ALLOWED_NFS && mcc != ""
    ensures var plmn := Reread(mnc, mcc);
            FqdnToMapping(partners, Fqdn(nf, mnc, mcc), model)
            == (if IsPartner(partners, plmn)
                then Mapped(model.(telescopicLabel := Some(Label(nf, plmn)), domain := Some(SEPP_DOMAIN)))
                else NotMapped)
  {
    AllowedNfShape(nf);
    ParseOfPrinted(nf, mnc, mcc);
  }

  lemma FqdnOfLabel(partners: seq<PlmnConfig>, nf: Text, mcc: Text, mnc: Text, model: Mapping)
    requires nf in ALLOWED_NFS && |mcc| == 3
    ensures MappingToFqdn(partners, Label(nf, mcc + mnc), model)
         == if IsPartner(partners, mcc + mnc)
            then Mapped(Mapping(Some(Fqdn(nf, Pad(mnc), mcc)), Some(Label(nf, mcc + mnc)), Some(SEPP_DOMAIN)))
            else NotMapped
  {
    LabelParts(nf, mcc + mnc);
    assert (mcc + mnc)[..3] == mcc && (mcc + mnc)[3..] == mnc;
  }

  /** Resolving the label made from an FQDN gives the FQDN with its MNC padded; both directions succeed
      for the same FQDNs, those of roaming partners. */
  lemma RoundTrip(partners: seq<PlmnConfig>, nf: Text, mcc: Text, mnc: Text, m1: Mapping, m2: Mapping)
    requires WellFormed(nf, mcc, mnc)
    ensures var there := GetMapping(partners, Fqdn(nf, mnc, mcc), "", m1);
            var back := GetMapping(partners, "", Label(nf, mcc + mnc), m2);
            && (there.Mapped? <==> back.Mapped?) && (there.Mapped? <==> IsPartner(partners, mcc + mnc))
            && (there.Mapped? ==> there.mapping.telescopicLabel == Some(Label(nf, mcc + mnc))
                                  && back.mapping.foreignFqdn == Some(Fqdn(nf, Pad(mnc), mcc)))
  {
    LabelOfFqdn(partners, nf, mcc, mnc, m1);
    FqdnOfLabel(partners, nf, mcc, mnc, m2);
  }

  /** Distinct network functions or PLMNs have distinct labels; two labels resolve to one FQDN exactly
      when they differ in nothing but the padding of the MNC. */
  lemma LabelsAreDistinct(nf1: Text, mcc1: Text, mnc1: Text, nf2: Text, mcc2: Text, mnc2: Text)
    requires WellFormed(nf1, mcc1, mnc1) && WellFormed(nf2, mcc2, mnc2)
    ensures Label(nf1, mcc1 + mnc1) == Label(nf2, mcc2 + mnc2) <==> nf1 == nf2 && mcc1 == mcc2 && mnc1 == mnc2
    ensures Fqdn(nf1, Pad(mnc1), mcc1) == Fqdn(nf2, Pad(mnc2), mcc2)
        <==> nf1 == nf2 && mcc1 == mcc2 && Pad(mnc1) == Pad(mnc2)
  {
    LabelParts(nf1, mcc1 + mnc1);
    LabelParts(nf2, mcc2 + mnc2);
    AllowedNfShape(nf1);
    AllowedNfShape(nf2);
    PaddingAddsNoMark(mnc1);
    PaddingAddsNoMark(mnc2);
    ParseOfPrinted(nf1, Pad(mnc1), mcc1);
    ParseOfPrinted(nf2, Pad(mnc2), mcc2);
    SplitPlmn(mcc1, mnc1, mcc2, mnc2);
    SplitPlmn(mcc1, Pad(mnc1), mcc2, Pad(mnc2));
  }

  lemma SplitPlmn(mcc1: Text, mnc1: Text, mcc2: Text, mnc2: Text)
    requires |mcc1| == 3 && |mcc2| == 3
    ensures mcc1 + mnc1 == mcc2 + mnc2 ==> mcc1 == mcc2 && mnc1 == mnc2
  {
    if mcc1 + mnc1 == mcc2 + mnc2 {
      assert mcc1 == (mcc1 + mnc1)[..3] == mcc2;
      assert mnc1 == (mcc1 + mnc1)[3..] == mnc2;
    }
  }

  predicate MarkFreeMncs(partners: seq<PlmnConfig>) {
    forall i :: 0 <= i < |partners| ==> Find(partners[i].mnc, MCC_MARK).None?
  }

  predicate ThreeCharacterMccs(partners: seq<PlmnConfig>) {
    forall i :: 0 <= i < |partners| ==> |partners[i].mcc| == 3
  }

  /** The PLMN a resolved label's FQDN names. */
  function PaddedPlmn(plmn: Text): Text
    requires |plmn| >= 3
  {
    plmn[..3] + Pad(plmn[3..])
  }

  lemma PaddedPartner(partners: seq<PlmnConfig>, plmn: Text)
    requires ThreeCharacterMccs(partners) && IsPartner(partners, plmn)
    ensures |plmn| >= 3 && IsPartner(partners, PaddedPlmn(plmn))
    ensures MarkFreeMncs(partners) ==> Find(plmn[3..], MCC_MARK).None?
  {
    var i :| 0 <= i < |partners| && Names(partners[i], plmn);
    var mcc, mnc := partners[i].mcc, partners[i].mnc;
    var rest := if mcc + mnc == plmn then mnc else Pad(mnc);
    assert plmn == mcc + rest && plmn[..3] == mcc && plmn[3..] == rest;
    assert Names(partners[i], mcc + Pad(mnc));
    PaddingAddsNoMark(mnc);
  }

  function PlmnOfLabel(tag: Text): Text
    requires Find(tag, PLMN).Some?
  {
    tag[Find(tag, PLMN).value + |PLMN|..]
  }

  /** Whatever label resolves, the FQDN it resolves to maps to a label again exactly when the PLMN read from
      that FQDN is a partner's. Unless the MNC holds the mark of the MCC this is the padded PLMN, and the new
      label resolves to the same FQDN. */
  lemma ResolveIsStableIff(partners: seq<PlmnConfig>, tag: Text, m1: Mapping, m2: Mapping, m3: Mapping)
    requires MappingToFqdn(partners, tag, m1).Mapped?
    ensures |PlmnOfLabel(tag)| >= 3
    ensures var plmn := PlmnOfLabel(tag);
            var fqdn := MappingToFqdn(partners, tag, m1).mapping.foreignFqdn.value;
            var again := FqdnToMapping(partners, fqdn, m2);
            && (again.Mapped? <==> IsPartner(partners, Reread(Pad(plmn[3..]), plmn[..3])))
            && (Find(plmn[3..], MCC_MARK).None? ==> Reread(Pad(plmn[3..]), plmn[..3]) == PaddedPlmn(plmn))
            && (Find(plmn[3..], MCC_MARK).None? && again.Mapped? ==>
                  var once := MappingToFqdn(partners, again.mapping.telescopicLabel.value, m3);
                  once.Mapped? && once.mapping.foreignFqdn == Some(fqdn))
  {
    var pos := Find(tag, PLMN).value;
    var nf, plmn := tag[..pos], PlmnOfLabel(tag);
    var mcc, mnc := plmn[..3], Pad(plmn[3..]);
    assert Pad(mnc) == mnc;
    PaddingAddsNoMark(plmn[3..]);
    LabelOfFqdn(partners, nf, mcc, mnc, m2);
    FqdnOfLabel(partners, nf, mcc, mnc, m3);
  }

  /** With three-character MCCs and MNCs without the mark, as the digits of section 2.2 of 3GPP TS 23.003 are,
      it always is. */
  lemma ResolveIsStable(partners: seq<PlmnConfig>, tag: Text, m1: Mapping, m2: Mapping, m3: Mapping)
    requires MarkFreeMncs(partners) && ThreeCharacterMccs(partners) && MappingToFqdn(partners, tag, m1).Mapped?
    ensures var fqdn := MappingToFqdn(partners, tag, m1).mapping.foreignFqdn.value;
            var again := FqdnToMapping(partners, fqdn, m2);
            && again.Mapped?
            && var once := MappingToFqdn(partners, again.mapping.telescopicLabel.value, m3);
               once.Mapped? && once.mapping.foreignFqdn == Some(fqdn)
  {
    PaddedPartner(partners, PlmnOfLabel(tag));
    ResolveIsStableIff(partners, tag, m1, m2, m3);
  }

  // ---------------------------------------------------------------- the rules in their own words

  /** The network functions that are mapped. */
  predicate IsMapped(nf: Text) {
    nf in {"nrf", "ausf", "smf", "amf", "udm", "pcf", "nssf"}
  }

  ghost predicate HasPartner(partners: seq<PlmnConfig>, plmn: Text) {
    exists i :: 0 <= i < |partners| && NamedBy(partners[i], plmn)
  }

  lemma MappedIff(nf: Text)
    ensures IsMapped(nf) <==> nf in ALLOWED_NFS
  {
  }

  /** A label resolves, for a mapped function and a partner, to the FQDN with an MNC of three digits: one of two
      gets a leading zero, which keeps its value, every other one is taken as it is. */
  lemma LabelResolves(partners: seq<PlmnConfig>, nf: Text, mcc: Text, mnc: Text, model: Mapping)
    requires IsMapped(nf) && |mcc| == 3 && AllDigits(mnc)
    ensures var tag := nf + "plmn" + mcc + mnc;
            var resolved := if |mnc| == 2 then "0" + mnc else mnc;
            && GetMapping(partners, "", tag, model)
               == (if HasPartner(partners, mcc + mnc)
                   then Mapped(Mapping(Some(nf + ".5gc.mnc" + resolved + ".mcc" + mcc + ".3gppnetwork.org"), Some(tag),
                                       Some("sepp.5gc.mnc001.mcc001.3gppnetwork.org")))
                   else NotMapped)
            && AllDigits(resolved) && DigitsValue(resolved) == DigitsValue(mnc)
            && (|mnc| in {2, 3} ==> |resolved| == 3)
  {
    MappedIff(nf);
    PartnerIff(partners, mcc + mnc);
    FqdnOfLabel(partners, nf, mcc, mnc, model);
    LeadingZero(mnc);
    assert Label(nf, mcc + mnc) == nf + "plmn" + mcc + mnc;
  }

  /** An FQDN is mapped, for a mapped function and a partner, to the label of its function, MCC and MNC. */
  lemma FqdnIsLabelled(partners: seq<PlmnConfig>, nf: Text, mcc: Text, mnc: Text, model: Mapping)
    requires '.' !in nf && mcc != "" && AllDigits(mnc)
    ensures GetMapping(partners, nf + ".5gc.mnc" + mnc + ".mcc" + mcc + ".3gppnetwork.org", "", model)
         == if IsMapped(nf) && HasPartner(partners, mcc + mnc)
            then Mapped(model.(telescopicLabel := Some(nf + "plmn" + mcc + mnc),
                               domain := Some("sepp.5gc.mnc001.mcc001.3gppnetwork.org")))
            else NotMapped
  {
    MappedIff(nf);
    PartnerIff(partners, mcc + mnc);
    ParseOfPrinted(nf, mnc, mcc);
    NoMarkInDigits(mnc);
    assert Label(nf, mcc + mnc) == nf + "plmn" + mcc + mnc;
  }

  /** The three letters before the MNC are skipped unread. Where the mark of the MCC starts within them, the MNC is
      read to the end of the text. */
  lemma LettersAreNotRead(letters: Text, mnc: Text, mcc: Text)
    requires '.' !in letters && mcc != ""
    ensures |letters| == 3 && AllDigits(mnc) ==>
              ParsePlmn(letters + mnc + ".mcc" + (mcc + ".3gppnetwork.org")) == Some(mcc + mnc)
    ensures var remaining := letters + ".mcc" + (mcc + ".3gppnetwork.org");
            |letters| < 3 ==> ParsePlmn(remaining) == Some(mcc + remaining[3..])
  {
    SuffixOf(mcc);
    if |letters| == 3 && AllDigits(mnc) {
      var front, remaining := letters + mnc, letters + mnc + MCC_MARK + (mcc + SUFFIX);
      assert '.' !in front;
      FindAtFirstChar(front, MCC_MARK, mcc + SUFFIX);
      ParsePlmnAt(front, mcc, |mnc|);
      assert front[3..] == mnc;
    }
    if |letters| < 3 {
      var remaining := letters + MCC_MARK + (mcc + SUFFIX);
      FindAtFirstChar(letters, MCC_MARK, mcc + SUFFIX);
      assert remaining[|letters| + |MCC_MARK|..] == mcc + SUFFIX;
    }
  }

  /** A label whose PLMN is a partner's but has less than three characters ends in an exception. */
  lemma ShortPlmnThrows(partners: seq<PlmnConfig>, nf: Text, plmn: Text, model: Mapping)
    requires IsMapped(nf) && |plmn| < 3
    ensures GetMapping(partners, "", nf + "plmn" + plmn, model)
         == if HasPartner(partners, plmn) then Throws else NotMapped
  {
    MappedIff(nf);
    PartnerIff(partners, plmn);
    LabelParts(nf, plmn);
  }

  lemma EndOfTail(s: Text, k: nat, end: Text)
    requires k <= |s|
    ensures EndsWith(s[k..], end) ==> EndsWith(s, end)
  {
    if EndsWith(s[k..], end) {
      assert s[|s| - |end|..] == s[k..][|s| - k - |end|..];
    }
  }

  lemma SuffixIsNeeded(fqdn: Text)
    requires !EndsWith(fqdn, ".3gppnetwork.org")
    ensures ParseFqdn(fqdn).None?
  {
    assert SUFFIX == ".3gppnetwork.org";
    if Find(fqdn, CORE).Some? {
      var remaining := fqdn[Find(fqdn, CORE).value + |CORE|..];
      if Find(remaining, MCC_MARK).Some? {
        var k := Find(remaining, MCC_MARK).value + |MCC_MARK|;
        EndOfTail(remaining, k, SUFFIX);
        EndOfTail(fqdn, |fqdn| - |remaining|, SUFFIX);
      }
    }
  }

  /** Nothing is mapped when both arguments are given or none is, when an FQDN has no ".5gc." or does not end in
      ".3gppnetwork.org", and when what stands before the first "plmn" of a label is no mapped function. */
  lemma NothingIsMapped(partners: seq<PlmnConfig>, fqdn: Text, tag: Text, model: Mapping)
    ensures (fqdn == "" <==> tag == "") ==> GetMapping(partners, fqdn, tag, model) == NotMapped
    ensures Find(fqdn, ".5gc.").None? || !EndsWith(fqdn, ".3gppnetwork.org") ==> GetMapping(partners, fqdn, "", model) == NotMapped
    ensures Find(tag, "plmn").None? || !IsMapped(tag[..Find(tag, "plmn").value]) ==>
              GetMapping(partners, "", tag, model) == NotMapped
  {
    assert CORE == ".5gc." && PLMN == "plmn";
    if !EndsWith(fqdn, ".3gppnetwork.org") {
      SuffixIsNeeded(fqdn);
    }
    if Find(tag, PLMN).Some? {
      MappedIff(tag[..Find(tag, PLMN).value]);
    }
  }
}
