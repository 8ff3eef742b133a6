/**
 * The evidence tier of a candidate key against trusted keys, over an unordered pile of
 * attestations from untrusted channels.
 */
module LinkEvidence {
  import opened Basics
  import opened Messages

  datatype Claim =
    | Name(text: string)
    | Avatar(hash: BlobHash, key: nat)
    | SamePersonAs(linked: PublicKey)
    | Negative
    | DeviceLabel(text: string)

  datatype Attestation = Attestation(version: nat, attester: PublicKey, subject: PublicKey, claim: Claim, revision: nat)

  datatype AttestationSignature = SignedBy(device: DeviceKey, content: Attestation) | Forged(bytes: nat)

  datatype SignedAttestation = SignedAttestation(attestation: Attestation, sig: AttestationSignature)

  datatype LinkTier = Untrusted | VouchedFromTrust | MutuallyConfirmed

  /** One usable piece of evidence: who says it, about whom, at which revision. */
  datatype Evidence = Evidence(from: PublicKey, to: PublicKey, revision: nat)

  predicate Verifies(signed: SignedAttestation) {
    && signed.attestation.attester.PublicOf?
    && signed.sig == SignedBy(signed.attestation.attester.device, signed.attestation)
  }

  function VerifiedNegative(signed: SignedAttestation): Option<Evidence> {
    var a := signed.attestation;
    if a.claim.Negative? && Verifies(signed) then Some(Evidence(a.attester, a.subject, a.revision)) else None
  }

  function VerifiedSelfLink(signed: SignedAttestation): Option<Evidence> {
    var a := signed.attestation;
    if a.claim.SamePersonAs? && a.attester == a.subject && Verifies(signed)
    then Some(Evidence(a.attester, a.claim.linked, a.revision)) else None
  }

  function FilterMap(signed: seq<SignedAttestation>, f: SignedAttestation -> Option<Evidence>): seq<Evidence> {
    if signed == [] then [] else
      var rest := FilterMap(signed[1..], f);
      match f(signed[0])
      case None => rest
      case Some(evidence) => [evidence] + rest
  }

  /** A link stands unless its attester disavowed the linked key at a strictly higher revision. */
  predicate Stands(link: Evidence, negatives: seq<Evidence>) {
    !exists n :: n in negatives && n.from == link.from && n.to == link.to && n.revision > link.revision
  }

  function TierOf(trusted: seq<PublicKey>, candidate: PublicKey, attestations: seq<SignedAttestation>): LinkTier {
    var links := FilterMap(attestations, VerifiedSelfLink);
    var negatives := FilterMap(attestations, VerifiedNegative);
    if !exists l :: l in links && l.from in trusted && l.to == candidate && Stands(l, negatives) then Untrusted
    else if exists l :: l in links && l.from == candidate && l.to in trusted && Stands(l, negatives)
    then MutuallyConfirmed
    else VouchedFromTrust
  }

  // ---- The max-revision form ----------------------------------------------------

  lemma {:induction false} FilterMapMembers(signed: seq<SignedAttestation>, f: SignedAttestation -> Option<Evidence>)
    ensures forall e :: e in FilterMap(signed, f) <==> exists s :: s in signed && f(s) == Some(e)
    decreases |signed|
  {
    if signed != [] {
      FilterMapMembers(signed[1..], f);
      assert forall s :: s in signed <==> s == signed[0] || s in signed[1..];
    }
  }

  /** One key's own statement, under its own signature, that it is the same person as another. */
  ghost predicate SignedLink(s: SignedAttestation, from: PublicKey, to: PublicKey) {
    && s.attestation.claim == SamePersonAs(to)
    && s.attestation.attester == from
    && s.attestation.subject == from
    && from.PublicOf?
    && s.sig == SignedBy(from.device, s.attestation)
  }

  /** The revisions at which one key signed that it is the same person as another. */
  ghost function LinkRevisions(attestations: set<SignedAttestation>, from: PublicKey, to: PublicKey): set<nat> {
    set s | s in attestations && SignedLink(s, from, to) :: s.attestation.revision
  }

  /** One key's disavowal of another, under its own signature. */
  ghost predicate SignedDisavowal(s: SignedAttestation, from: PublicKey, of: PublicKey) {
    && s.attestation.claim == Negative
    && s.attestation.attester == from
    && s.attestation.subject == of
    && from.PublicOf?
    && s.sig == SignedBy(from.device, s.attestation)
  }

  /** The revisions at which it signed a disavowal of it. */
  ghost function DisavowalRevisions(attestations: set<SignedAttestation>, from: PublicKey, to: PublicKey): set<nat> {
    set s | s in attestations && SignedDisavowal(s, from, to) :: s.attestation.revision
  }

  ghost predicate IsMax(revisions: set<nat>, top: nat) {
    top in revisions && forall r | r in revisions :: r <= top
  }

  /** A direction is live iff its highest link revision is at least its highest disavowal. */
  ghost predicate DirectionLive(attestations: set<SignedAttestation>, from: PublicKey, to: PublicKey) {
    exists top: nat ::
      && IsMax(LinkRevisions(attestations, from, to), top)
      && forall r | r in DisavowalRevisions(attestations, from, to) :: r <= top
  }

  lemma {:induction false} MaxExists(revisions: set<nat>)
    requires revisions != {}
    ensures exists top: nat :: IsMax(revisions, top)
    decreases |revisions|
  {
    var r :| r in revisions;
    var rest := revisions - {r};
    assert forall x | x in revisions :: x == r || x in rest;
    if rest == {} {
      assert IsMax(revisions, r);
    } else {
      MaxExists(rest);
      var top: nat :| IsMax(rest, top);
      assert IsMax(revisions, Max(r, top));
    }
  }

  lemma StandsIffAboveNegatives(attestations: seq<SignedAttestation>, link: Evidence)
    ensures Stands(link, FilterMap(attestations, VerifiedNegative)) <==>
              forall r | r in DisavowalRevisions(ToSet(attestations), link.from, link.to) :: r <= link.revision
  {
    var negatives := FilterMap(attestations, VerifiedNegative);
    FilterMapMembers(attestations, VerifiedNegative);
    forall n | n in negatives && n.from == link.from && n.to == link.to
      ensures n.revision in DisavowalRevisions(ToSet(attestations), link.from, link.to)
    {
      var s :| s in attestations && VerifiedNegative(s) == Some(n);
      assert s in ToSet(attestations);
    }
    forall r | r in DisavowalRevisions(ToSet(attestations), link.from, link.to)
      ensures Evidence(link.from, link.to, r) in negatives
    {
      var s :| s in ToSet(attestations) && VerifiedNegative(s).Some? && VerifiedNegative(s).value.from == link.from
               && VerifiedNegative(s).value.to == link.to && VerifiedNegative(s).value.revision == r;
      assert VerifiedNegative(s) == Some(Evidence(link.from, link.to, r));
    }
  }

  /** Some verified link of a direction stands. */
  predicate SomeStands(links: seq<Evidence>, negatives: seq<Evidence>, from: PublicKey, to: PublicKey) {
    exists l :: l in links && l.from == from && l.to == to && Stands(l, negatives)
  }

  /** A direction has a standing link iff it is live by its highest revisions. */
  lemma SomeStandsIffLive(attestations: seq<SignedAttestation>, from: PublicKey, to: PublicKey)
    ensures SomeStands(
              FilterMap(attestations, VerifiedSelfLink), FilterMap(attestations, VerifiedNegative), from, to) <==>
            DirectionLive(ToSet(attestations), from, to)
  {
    var all := ToSet(attestations);
    var links, negatives := FilterMap(attestations, VerifiedSelfLink), FilterMap(attestations, VerifiedNegative);
    var revisions := LinkRevisions(all, from, to);
    FilterMapMembers(attestations, VerifiedSelfLink);
    if SomeStands(links, negatives, from, to) {
      var l :| l in links && l.from == from && l.to == to && Stands(l, negatives);
      var s :| s in attestations && VerifiedSelfLink(s) == Some(l);
      assert s in all && l.revision in revisions;
      MaxExists(revisions);
      var top: nat :| IsMax(revisions, top);
      StandsIffAboveNegatives(attestations, l);
      assert DirectionLive(all, from, to);
    }
    if DirectionLive(all, from, to) {
      var top: nat :| IsMax(revisions, top) && forall r | r in DisavowalRevisions(all, from, to) :: r <= top;
      var s :| s in all && VerifiedSelfLink(s).Some? && VerifiedSelfLink(s).value.from == from
               && VerifiedSelfLink(s).value.to == to && VerifiedSelfLink(s).value.revision == top;
      var l := Evidence(from, to, top);
      assert VerifiedSelfLink(s) == Some(l) && s in attestations;
      StandsIffAboveNegatives(attestations, l);
      assert l in links && Stands(l, negatives);
    }
  }

  /** The tier read off the set of attestations, by highest revisions. */
  ghost function MaxRevisionTier(
      trusted: set<PublicKey>, candidate: PublicKey, attestations: set<SignedAttestation>): LinkTier
  {
    if !exists t :: t in trusted && DirectionLive(attestations, t, candidate) then Untrusted
    else if exists t :: t in trusted && DirectionLive(attestations, candidate, t) then MutuallyConfirmed
    else VouchedFromTrust
  }

  lemma TierIsMaxRevision(trusted: seq<PublicKey>, candidate: PublicKey, attestations: seq<SignedAttestation>)
    ensures TierOf(trusted, candidate, attestations) == MaxRevisionTier(ToSet(trusted), candidate, ToSet(attestations))
  {
    var links := FilterMap(attestations, VerifiedSelfLink);
    var negatives := FilterMap(attestations, VerifiedNegative);
    var all := ToSet(attestations);
    forall from, to
      ensures SomeStands(links, negatives, from, to) <==> DirectionLive(all, from, to)
    {
      SomeStandsIffLive(attestations, from, to);
    }
    forall l | l in links && Stands(l, negatives)
      ensures DirectionLive(all, l.from, l.to)
    {
      assert SomeStands(links, negatives, l.from, l.to);
    }
    forall from, to | DirectionLive(all, from, to)
      ensures exists l :: l in links && l.from == from && l.to == to && Stands(l, negatives)
    {
      assert SomeStands(links, negatives, from, to);
    }
  }

  /** A key vouches for another: some signed link, of a revision no signed disavowal exceeds. */
  ghost predicate Vouches(attestations: seq<SignedAttestation>, from: PublicKey, to: PublicKey) {
    exists s ::
      && s in attestations
      && SignedLink(s, from, to)
      && forall n | n in attestations && SignedDisavowal(n, from, to) ::
           n.attestation.revision <= s.attestation.revision
  }

  lemma VouchesIffLive(attestations: seq<SignedAttestation>, from: PublicKey, to: PublicKey)
    ensures Vouches(attestations, from, to) <==> DirectionLive(ToSet(attestations), from, to)
  {
    var all := ToSet(attestations);
    var revisions := LinkRevisions(all, from, to);
    forall n | n in attestations && SignedDisavowal(n, from, to)
      ensures n.attestation.revision in DisavowalRevisions(all, from, to)
    {
      assert n in all;
    }
    forall s | s in attestations && SignedLink(s, from, to)
      ensures s.attestation.revision in revisions
    {
      assert s in all;
    }
    if revisions != {} {
      MaxExists(revisions);
    }
  }

  /** The tier in plain terms: a trusted key vouches for the candidate, and perhaps the candidate for a trusted key. */
  lemma TierFromSignedLinks(trusted: seq<PublicKey>, candidate: PublicKey, attestations: seq<SignedAttestation>)
    ensures TierOf(trusted, candidate, attestations) != Untrusted <==>
              exists t :: t in trusted && Vouches(attestations, t, candidate)
    ensures TierOf(trusted, candidate, attestations) == MutuallyConfirmed <==>
              && (exists t :: t in trusted && Vouches(attestations, t, candidate))
              && exists t :: t in trusted && Vouches(attestations, candidate, t)
  {
    TierIsMaxRevision(trusted, candidate, attestations);
    forall from, to
      ensures Vouches(attestations, from, to) <==> DirectionLive(ToSet(attestations), from, to)
    {
      VouchesIffLive(attestations, from, to);
    }
    hide TierOf, DirectionLive, Vouches;
  }

  /** No tier without signatures: some trusted key signed a link about itself, and for both ways the candidate did. */
  lemma TierNeedsSignatures(trusted: seq<PublicKey>, candidate: PublicKey, attestations: seq<SignedAttestation>)
    ensures TierOf(trusted, candidate, attestations) != Untrusted ==>
              exists s ::
                && s in attestations
                && s.attestation.claim == SamePersonAs(candidate)
                && s.attestation.attester in trusted
                && s.attestation.subject == s.attestation.attester
                && s.attestation.attester.PublicOf?
                && s.sig == SignedBy(s.attestation.attester.device, s.attestation)
    ensures TierOf(trusted, candidate, attestations) == MutuallyConfirmed ==>
              exists s ::
                && s in attestations
                && s.attestation.claim.SamePersonAs?
                && s.attestation.claim.linked in trusted
                && s.attestation.attester == candidate
                && s.attestation.subject == candidate
                && candidate.PublicOf?
                && s.sig == SignedBy(candidate.device, s.attestation)
  {
    TierFromSignedLinks(trusted, candidate, attestations);
    hide TierOf;
    if t :| t in trusted && Vouches(attestations, t, candidate) {
      var s :| s in attestations && SignedLink(s, t, candidate);
    }
    if t :| t in trusted && Vouches(attestations, candidate, t) {
      var s :| s in attestations && SignedLink(s, candidate, t);
    }
  }

  lemma InertForDirection(
      attestations: seq<SignedAttestation>, more: SignedAttestation, from: PublicKey, to: PublicKey)
    requires !SignedLink(more, from, to) && !SignedDisavowal(more, from, to)
    ensures Vouches(attestations + [more], from, to) <==> Vouches(attestations, from, to)
  {
    var all := attestations + [more];
    assert forall s :: s in all <==> s in attestations || s == more;
    if Vouches(attestations, from, to) {
      var s :| s in attestations && SignedLink(s, from, to) &&
        forall n | n in attestations && SignedDisavowal(n, from, to) ::
          n.attestation.revision <= s.attestation.revision;
      assert s in all;
    }
  }

  /** What is not signed by its attester, or links a third party, or claims something else altogether, is inert. */
  lemma InertEvidence(
      trusted: seq<PublicKey>, candidate: PublicKey, attestations: seq<SignedAttestation>, more: SignedAttestation)
    requires
      var a := more.attestation;
      || !(a.attester.PublicOf? && more.sig == SignedBy(a.attester.device, a))
      || (a.claim.SamePersonAs? && a.attester != a.subject)
      || !(a.claim.SamePersonAs? || a.claim.Negative?)
    ensures TierOf(trusted, candidate, attestations + [more]) == TierOf(trusted, candidate, attestations)
  {
    TierFromSignedLinks(trusted, candidate, attestations);
    TierFromSignedLinks(trusted, candidate, attestations + [more]);
    forall from, to
      ensures Vouches(attestations + [more], from, to) <==> Vouches(attestations, from, to)
    {
      InertForDirection(attestations, more, from, to);
    }
    hide TierOf, Vouches;
  }

  /** A signed disavowal above every signed link of its attester to that key undoes them all. */
  lemma DisavowalVoids(
      trusted: PublicKey, candidate: PublicKey, attestations: seq<SignedAttestation>, n: SignedAttestation)
    requires n in attestations && n.attestation.claim == Negative
    requires n.attestation.attester == trusted && n.attestation.subject == candidate
    requires trusted.PublicOf? && n.sig == SignedBy(trusted.device, n.attestation)
    requires forall s |
               s in attestations && s.attestation.claim == SamePersonAs(candidate)
               && s.attestation.attester == trusted && s.attestation.subject == trusted
               && s.sig == SignedBy(trusted.device, s.attestation) ::
               s.attestation.revision < n.attestation.revision
    ensures TierOf([trusted], candidate, attestations) == Untrusted
    ensures forall others: seq<PublicKey> | TierOf(others, candidate, attestations) != Untrusted ::
              exists t :: t in others && t != trusted && Vouches(attestations, t, candidate)
  {
    assert SignedDisavowal(n, trusted, candidate);
    forall s | s in attestations && SignedLink(s, trusted, candidate)
      ensures s.attestation.revision < n.attestation.revision
    {
    }
    assert !Vouches(attestations, trusted, candidate);
    TierFromSignedLinks([trusted], candidate, attestations);
    forall others: seq<PublicKey> | TierOf(others, candidate, attestations) != Untrusted
      ensures exists t :: t in others && t != trusted && Vouches(attestations, t, candidate)
    {
      TierFromSignedLinks(others, candidate, attestations);
    }
  }

  /** Order and repetition of the evidence, and of the trusted keys, do not matter. */
  lemma TierIgnoresOrder(
      trusted: seq<PublicKey>, trusted': seq<PublicKey>, candidate: PublicKey,
      xs: seq<SignedAttestation>, ys: seq<SignedAttestation>)
    requires ToSet(trusted) == ToSet(trusted') && ToSet(xs) == ToSet(ys)
    ensures TierOf(trusted, candidate, xs) == TierOf(trusted', candidate, ys)
  {
    TierIsMaxRevision(trusted, candidate, xs);
    TierIsMaxRevision(trusted', candidate, ys);
  }

  // ---- Monotonicity -------------------------------------------------------------

  lemma FilterMapGrows(
      signed: seq<SignedAttestation>, more: SignedAttestation, f: SignedAttestation -> Option<Evidence>)
    ensures forall e | e in FilterMap(signed, f) :: e in FilterMap(signed + [more], f)
    ensures f(more).None? ==> forall e | e in FilterMap(signed + [more], f) :: e in FilterMap(signed, f)
  {
    FilterMapMembers(signed, f);
    FilterMapMembers(signed + [more], f);
  }

  /** Adding anything that is not a verified disavowal never lowers the tier. */
  lemma LinksNeverLower(
      trusted: seq<PublicKey>, candidate: PublicKey, attestations: seq<SignedAttestation>, more: SignedAttestation)
    requires
      var a := more.attestation;
      !(a.claim == Negative && a.attester.PublicOf? && more.sig == SignedBy(a.attester.device, a))
    ensures var before := TierOf(trusted, candidate, attestations);
            var after := TierOf(trusted, candidate, attestations + [more]);
            && (before == VouchedFromTrust ==> after == VouchedFromTrust || after == MutuallyConfirmed)
            && (before == MutuallyConfirmed ==> after == MutuallyConfirmed)
  {
    FilterMapGrows(attestations, more, VerifiedSelfLink);
    FilterMapGrows(attestations, more, VerifiedNegative);
    var before, after := FilterMap(attestations, VerifiedNegative), FilterMap(attestations + [more], VerifiedNegative);
    assert forall l :: Stands(l, before) ==> Stands(l, after);
  }

  /** Adding anything that is not a verified self-link never raises the tier. */
  lemma NegativesNeverRaise(
      trusted: seq<PublicKey>, candidate: PublicKey, attestations: seq<SignedAttestation>, more: SignedAttestation)
    requires
      var a := more.attestation;
      !(a.claim.SamePersonAs? && a.attester == a.subject && a.attester.PublicOf?
        && more.sig == SignedBy(a.attester.device, a))
    ensures var before := TierOf(trusted, candidate, attestations);
            var after := TierOf(trusted, candidate, attestations + [more]);
            && (before == Untrusted ==> after == Untrusted)
            && (before == VouchedFromTrust ==> after == Untrusted || after == VouchedFromTrust)
  {
    FilterMapGrows(attestations, more, VerifiedSelfLink);
    FilterMapGrows(attestations, more, VerifiedNegative);
    var before, after := FilterMap(attestations, VerifiedNegative), FilterMap(attestations + [more], VerifiedNegative);
    assert forall l :: Stands(l, after) ==> Stands(l, before);
  }
}
