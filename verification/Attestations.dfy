/** Signed statements about a package and how records of one statement fold: model/attestation.go. */
module AttestationTheory {
  import opened MergeClasses

  datatype Digest = Digest(algorithm: string, value: string, subject: string)

  datatype Attestation = Attestation(source: string, predicateType: string, url: string, digest: Option<Digest>, issuer: string, verified: bool)

  /** One statement; an absent digest and an empty one identify alike. */
  datatype Statement = Statement(source: string, predicateType: string, url: string, digest: Digest)

  function StatementOf(a: Attestation): Statement
  {
    Statement(a.source, a.predicateType, a.url, if a.digest.Some? then a.digest.value else Digest("", "", ""))
  }

  /** Nothing beyond the statement's existence. */
  predicate ClaimsNothing(a: Attestation)
  {
    a.issuer == "" && !a.verified
  }

  predicate DescribesSame(a: Attestation, other: Attestation)
  {
    StatementOf(a) == StatementOf(other) && (a.issuer == other.issuer || ClaimsNothing(a) || ClaimsNothing(other))
  }

  /** Verification travels only to a record that claims nothing, or to one of the same issuer. */
  function Absorbed(a: Attestation, other: Attestation): Attestation
  {
    if ClaimsNothing(a) then other
    else if ClaimsNothing(other) then a
    else if other.verified then a.(verified := true)
    else a
  }

  /** The first record a candidate can fold into; the length of the list when there is none. */
  function FirstSame(list: seq<Attestation>, c: Attestation): (at: nat)
    ensures at <= |list| && (at < |list| ==> DescribesSame(list[at], c))
    ensures forall i :: 0 <= i < at ==> !DescribesSame(list[i], c)
  {
    if list == [] then 0
    else if DescribesSame(list[0], c) then 0
    else
      assert forall i :: 1 <= i < |list| ==> list[i] == list[1..][i - 1];
      1 + FirstSame(list[1..], c)
  }

  function Folded(list: seq<Attestation>, c: Attestation): seq<Attestation>
  {
    var at := FirstSame(list, c);
    if at < |list| then list[at := Absorbed(list[at], c)] else list + [c]
  }

  function Merged(list: seq<Attestation>, incoming: seq<Attestation>): seq<Attestation>
  {
    if incoming == [] then list else Folded(Merged(list, incoming[..|incoming| - 1]), incoming[|incoming| - 1])
  }

  // ----- What the inputs say, whatever their order

  /** Some input names this issuer for the statement, or verified it without naming one. */
  ghost predicate Claimed(inputs: seq<Attestation>, s: Statement, issuer: string)
  {
    exists a :: a in inputs && StatementOf(a) == s && a.issuer == issuer && !ClaimsNothing(a)
  }

  ghost predicate Verified(inputs: seq<Attestation>, s: Statement, issuer: string)
  {
    exists a :: a in inputs && StatementOf(a) == s && a.issuer == issuer && a.verified
  }

  ghost predicate Mentioned(inputs: seq<Attestation>, s: Statement)
  {
    exists a :: a in inputs && StatementOf(a) == s
  }

  ghost predicate AnyClaim(inputs: seq<Attestation>, s: Statement)
  {
    exists issuer :: Claimed(inputs, s, issuer)
  }

  /** The record set the inputs determine: one record per claimed issuer, verified when some input of that very pair
      was; a bare record only for a statement nobody claims anything about. */
  ghost predicate Determined(inputs: seq<Attestation>, s: Statement, issuer: string, verified: bool)
  {
    if Claimed(inputs, s, issuer) then verified == Verified(inputs, s, issuer)
    else issuer == "" && !verified && Mentioned(inputs, s) && !AnyClaim(inputs, s)
  }

  ghost predicate Recorded(list: seq<Attestation>, s: Statement, issuer: string, verified: bool)
  {
    exists a :: a in list && StatementOf(a) == s && a.issuer == issuer && a.verified == verified
  }

  /** No two records describe the same statement. */
  ghost predicate Apart(list: seq<Attestation>)
  {
    forall i, j :: 0 <= i < j < |list| ==> !DescribesSame(list[i], list[j])
  }

  /** The list says exactly what the inputs determine. */
  ghost predicate Faithful(list: seq<Attestation>, inputs: seq<Attestation>)
  {
    Apart(list) && forall s, issuer, verified {:trigger Recorded(list, s, issuer, verified)} ::
      Recorded(list, s, issuer, verified) <==> Determined(inputs, s, issuer, verified)
  }

  // ----- One more attestation

  lemma InputsGrow(inputs: seq<Attestation>, c: Attestation, s: Statement)
    ensures forall i :: Claimed(inputs + [c], s, i) <==> Claimed(inputs, s, i) || (StatementOf(c) == s && c.issuer == i && !ClaimsNothing(c))
    ensures forall i :: Verified(inputs + [c], s, i) <==> Verified(inputs, s, i) || (StatementOf(c) == s && c.issuer == i && c.verified)
    ensures Mentioned(inputs + [c], s) <==> Mentioned(inputs, s) || StatementOf(c) == s
    ensures AnyClaim(inputs + [c], s) <==> AnyClaim(inputs, s) || (StatementOf(c) == s && !ClaimsNothing(c))
  {
    var more := inputs + [c];
    assert c in more && forall a :: a in more <==> a in inputs || a == c;
    forall i ensures Claimed(more, s, i) <==> Claimed(inputs, s, i) || (StatementOf(c) == s && c.issuer == i && !ClaimsNothing(c)) {
    }
    if AnyClaim(inputs, s) {
      var i :| Claimed(inputs, s, i);
      assert Claimed(more, s, i);
    }
    if StatementOf(c) == s && !ClaimsNothing(c) {
      assert Claimed(more, s, c.issuer);
    }
  }

  lemma AppendRecords(list: seq<Attestation>, c: Attestation, s: Statement, issuer: string, verified: bool)
    ensures Recorded(list + [c], s, issuer, verified) <==>
            Recorded(list, s, issuer, verified) || (StatementOf(c) == s && c.issuer == issuer && c.verified == verified)
  {
    assert c in list + [c] && forall a :: a in list + [c] <==> a in list || a == c;
  }

  lemma UpdateRecords(list: seq<Attestation>, at: nat, b: Attestation, s: Statement, issuer: string, verified: bool)
    requires at < |list| && Apart(list)
    ensures Recorded(list[at := b], s, issuer, verified) <==>
            || (StatementOf(b) == s && b.issuer == issuer && b.verified == verified)
            || (Recorded(list, s, issuer, verified) && !(StatementOf(list[at]) == s && list[at].issuer == issuer && list[at].verified == verified))
  {
    var next := list[at := b];
    assert next[at] == b;
    if a :| a in list && StatementOf(a) == s && a.issuer == issuer && a.verified == verified {
      var i :| 0 <= i < |list| && list[i] == a;
      if i != at {
        assert next[i] == a;
        assert !DescribesSame(list[if i < at then i else at], list[if i < at then at else i]);
      }
    }
    if a :| a in next && StatementOf(a) == s && a.issuer == issuer && a.verified == verified {
      var i :| 0 <= i < |next| && next[i] == a;
      if i != at {
        assert list[i] == a;
        assert !DescribesSame(list[if i < at then i else at], list[if i < at then at else i]);
      }
    }
  }

  /** What the list says of one statement, and what the inputs determine. */
  ghost predicate Agree(list: seq<Attestation>, inputs: seq<Attestation>, s: Statement)
  {
    forall issuer, verified {:trigger Recorded(list, s, issuer, verified)} ::
      Recorded(list, s, issuer, verified) <==> Determined(inputs, s, issuer, verified)
  }

  lemma VerifiedIsClaimed(inputs: seq<Attestation>, s: Statement, issuer: string)
    requires Verified(inputs, s, issuer)
    ensures Claimed(inputs, s, issuer)
  {
  }

  lemma EmptyIssuerClaim(inputs: seq<Attestation>, s: Statement)
    requires Claimed(inputs, s, "")
    ensures Verified(inputs, s, "")
  {
  }

  /** A recorded entry that claims something was claimed by an input; a bare one means nobody claimed anything. */
  lemma RecordMeans(list: seq<Attestation>, inputs: seq<Attestation>, a: Attestation)
    requires Agree(list, inputs, StatementOf(a)) && a in list
    ensures Mentioned(inputs, StatementOf(a))
    ensures ClaimsNothing(a) ==> !AnyClaim(inputs, StatementOf(a))
    ensures !ClaimsNothing(a) ==> Claimed(inputs, StatementOf(a), a.issuer) && a.verified == Verified(inputs, StatementOf(a), a.issuer)
  {
    var s := StatementOf(a);
    assert Recorded(list, s, a.issuer, a.verified);
    if Claimed(inputs, s, a.issuer) && a.issuer == "" {
      EmptyIssuerClaim(inputs, s);
    }
  }

  /** A mentioned statement has a record, and a claimed pair has its own. */
  lemma MentionedIsRecorded(list: seq<Attestation>, inputs: seq<Attestation>, s: Statement, issuer: string)
    requires Agree(list, inputs, s)
    ensures Claimed(inputs, s, issuer) ==> Recorded(list, s, issuer, Verified(inputs, s, issuer))
    ensures Mentioned(inputs, s) ==> exists i, v :: Recorded(list, s, i, v)
  {
    if Mentioned(inputs, s) {
      if AnyClaim(inputs, s) {
        var i :| Claimed(inputs, s, i);
        assert Recorded(list, s, i, Verified(inputs, s, i));
      } else {
        assert Determined(inputs, s, "", false);
        assert Recorded(list, s, "", false);
      }
    }
  }

  lemma OtherStatements(list: seq<Attestation>, inputs: seq<Attestation>, c: Attestation, s: Statement)
    requires Apart(list) && Agree(list, inputs, s) && s != StatementOf(c)
    ensures Agree(Folded(list, c), inputs + [c], s)
  {
    InputsGrow(inputs, c, s);
    var at := FirstSame(list, c);
    forall issuer, verified ensures Recorded(Folded(list, c), s, issuer, verified) <==> Recorded(list, s, issuer, verified) {
      if at < |list| {
        UpdateRecords(list, at, Absorbed(list[at], c), s, issuer, verified);
      } else {
        AppendRecords(list, c, s, issuer, verified);
      }
    }
  }

  /** A candidate that folds into nothing is a claim of its own, or the first word about its statement. */
  lemma AppendAgrees(list: seq<Attestation>, inputs: seq<Attestation>, c: Attestation)
    requires Agree(list, inputs, StatementOf(c)) && FirstSame(list, c) == |list|
    ensures Agree(list + [c], inputs + [c], StatementOf(c))
  {
    var s := StatementOf(c);
    InputsGrow(inputs, c, s);
    MentionedIsRecorded(list, inputs, s, c.issuer);
    forall issuer, verified | Recorded(list, s, issuer, verified) ensures issuer != c.issuer && !(issuer == "" && !verified) && !ClaimsNothing(c) {
      var a :| a in list && StatementOf(a) == s && a.issuer == issuer && a.verified == verified;
      var i :| 0 <= i < |list| && list[i] == a;
      assert !DescribesSame(list[i], c);
    }
    if Verified(inputs, s, c.issuer) {
      VerifiedIsClaimed(inputs, s, c.issuer);
    }
    forall issuer, verified ensures Recorded(list + [c], s, issuer, verified) <==> Determined(inputs + [c], s, issuer, verified) {
      AppendRecords(list, c, s, issuer, verified);
    }
  }

  /** A candidate that folds into a record changes that record's claim and no other. */
  lemma AbsorbAgrees(list: seq<Attestation>, inputs: seq<Attestation>, c: Attestation, at: nat)
    requires Apart(list) && Agree(list, inputs, StatementOf(c)) && at < |list| && DescribesSame(list[at], c)
    ensures Agree(list[at := Absorbed(list[at], c)], inputs + [c], StatementOf(c))
  {
    var s, a, b := StatementOf(c), list[at], Absorbed(list[at], c);
    InputsGrow(inputs, c, s);
    RecordMeans(list, inputs, a);
    if Verified(inputs, s, c.issuer) {
      VerifiedIsClaimed(inputs, s, c.issuer);
    }
    forall issuer, verified ensures Recorded(list[at := b], s, issuer, verified) <==> Determined(inputs + [c], s, issuer, verified) {
      UpdateRecords(list, at, b, s, issuer, verified);
      assert Recorded(list, s, a.issuer, a.verified);
    }
  }

  lemma FoldedApart(list: seq<Attestation>, c: Attestation)
    requires Apart(list)
    ensures Apart(Folded(list, c))
  {
    var at := FirstSame(list, c);
    if at < |list| {
      var next := Folded(list, c);
      forall i, j | 0 <= i < j < |next| ensures !DescribesSame(next[i], next[j]) {
        assert !DescribesSame(list[i], list[j]);
        if i == at || j == at {
          AbsorbedApart(list[at], c, list[if i == at then j else i]);
        }
      }
    }
  }

  /** A record kept apart from another stays apart after it absorbs a candidate. */
  lemma AbsorbedApart(a: Attestation, c: Attestation, other: Attestation)
    requires DescribesSame(a, c) && !DescribesSame(a, other)
    ensures !DescribesSame(Absorbed(a, c), other) && !DescribesSame(other, Absorbed(a, c))
  {
  }

  lemma FoldedIsFaithful(list: seq<Attestation>, inputs: seq<Attestation>, c: Attestation)
    requires Faithful(list, inputs)
    ensures Faithful(Folded(list, c), inputs + [c])
  {
    FoldedApart(list, c);
    forall s ensures Agree(Folded(list, c), inputs + [c], s) {
      assert Agree(list, inputs, s);
      if s != StatementOf(c) {
        OtherStatements(list, inputs, c, s);
      } else if FirstSame(list, c) < |list| {
        AbsorbAgrees(list, inputs, c, FirstSame(list, c));
      } else {
        AppendAgrees(list, inputs, c);
      }
    }
    forall s, issuer, verified
      ensures Recorded(Folded(list, c), s, issuer, verified) <==> Determined(inputs + [c], s, issuer, verified)
    {
      assert Agree(Folded(list, c), inputs + [c], s);
    }
  }

  // ----- Over any sequence of attestations

  /** No two records describe one statement, and the record set is the one the inputs determine. */
  lemma {:induction false} MergedIsFaithful(inputs: seq<Attestation>)
    ensures Faithful(Merged([], inputs), inputs)
    decreases |inputs|
  {
    if inputs == [] {
      NothingRecorded();
    } else {
      var front, last := inputs[..|inputs| - 1], inputs[|inputs| - 1];
      assert inputs == front + [last];
      MergedIsFaithful(front);
      FoldedIsFaithful(Merged([], front), front, last);
    }
  }

  lemma NothingRecorded()
    ensures Faithful([], [])
  {
    forall s, issuer, verified ensures !Recorded([], s, issuer, verified) && !Determined([], s, issuer, verified) {
    }
  }

  /** A (statement, issuer) is verified in the result exactly when some input verified that very pair. */
  lemma VerificationNeverMoves(inputs: seq<Attestation>, s: Statement, issuer: string)
    ensures Recorded(Merged([], inputs), s, issuer, true) <==> Verified(inputs, s, issuer)
  {
    MergedIsFaithful(inputs);
    if Verified(inputs, s, issuer) {
      VerifiedIsClaimed(inputs, s, issuer);
    }
  }

  // ----- Records, field by field

  /** The same source, predicate type and URL, and the same digest; none and an empty one count as the same. */
  ghost predicate SameStatement(a: Attestation, b: Attestation)
  {
    && a.source == b.source && a.predicateType == b.predicateType && a.url == b.url
    && (a.digest == b.digest || (NoDigest(a) && NoDigest(b)))
  }

  ghost predicate NoDigest(a: Attestation)
  {
    a.digest.None? || (a.digest.value.algorithm == "" && a.digest.value.value == "" && a.digest.value.subject == "")
  }

  /** Some record of the list is about the statement of `x`, by this issuer, and verified or not. */
  ghost predicate Holds(list: seq<Attestation>, x: Attestation, issuer: string, verified: bool)
  {
    exists a :: a in list && SameStatement(a, x) && a.issuer == issuer && a.verified == verified
  }

  /** A verified record stands for each issuer some input verified it with; an unverified one for each issuer that only
      unverified inputs name; and one without issuer or verification where the inputs say no more than that. */
  lemma RecordsMean(inputs: seq<Attestation>, x: Attestation, issuer: string)
    ensures var m := Merged([], inputs);
            && (Holds(m, x, issuer, true) <==> Holds(inputs, x, issuer, true))
            && (issuer != "" ==> (Holds(m, x, issuer, false) <==> Holds(inputs, x, issuer, false) && !Holds(inputs, x, issuer, true)))
            && (Holds(m, x, "", false) <==>
                (exists a :: a in inputs && SameStatement(a, x)) && forall a :: a in inputs && SameStatement(a, x) ==> a.issuer == "" && !a.verified)
            && forall i, j :: 0 <= i < j < |m| ==> !(SameStatement(m[i], m[j]) && m[i].issuer == m[j].issuer)
  {
    var m, s := Merged([], inputs), StatementOf(x);
    MergedIsFaithful(inputs);
    forall a, b ensures SameStatement(a, b) <==> StatementOf(a) == StatementOf(b) {
    }
    forall i, v ensures Holds(m, x, i, v) <==> Recorded(m, s, i, v) {
    }
    hide Merged;
    assert Recorded(m, s, issuer, true) <==> Determined(inputs, s, issuer, true);
    assert Recorded(m, s, issuer, false) <==> Determined(inputs, s, issuer, false);
    assert Recorded(m, s, "", false) <==> Determined(inputs, s, "", false);
    ClaimsMean(inputs, x, issuer);
    ClaimsMean(inputs, x, "");
  }

  lemma ClaimsMean(inputs: seq<Attestation>, x: Attestation, issuer: string)
    ensures var s := StatementOf(x);
            && (Verified(inputs, s, issuer) <==> Holds(inputs, x, issuer, true))
            && (Claimed(inputs, s, issuer) <==> Holds(inputs, x, issuer, true) || (issuer != "" && Holds(inputs, x, issuer, false)))
            && (Mentioned(inputs, s) <==> exists a :: a in inputs && SameStatement(a, x))
            && (AnyClaim(inputs, s) <==> exists a :: a in inputs && SameStatement(a, x) && (a.issuer != "" || a.verified))
  {
    forall a ensures SameStatement(a, x) <==> StatementOf(a) == StatementOf(x) {
    }
    hide SameStatement;
    hide StatementOf;
    if a :| a in inputs && SameStatement(a, x) && (a.issuer != "" || a.verified) {
      assert Claimed(inputs, StatementOf(x), a.issuer);
    }
  }

  /** Arrival order decides nothing that is recorded. */
  lemma OrderDoesNotMatter(a: seq<Attestation>, b: seq<Attestation>, s: Statement, issuer: string, verified: bool)
    requires multiset(a) == multiset(b)
    ensures Recorded(Merged([], a), s, issuer, verified) <==> Recorded(Merged([], b), s, issuer, verified)
  {
    MergedIsFaithful(a);
    MergedIsFaithful(b);
    forall x ensures x in a <==> x in b {
      assert x in multiset(a) <==> x in multiset(b);
    }
    forall i ensures Claimed(a, s, i) <==> Claimed(b, s, i) {
    }
  }

  lemma {:induction false} MergedInBatches(list: seq<Attestation>, a: seq<Attestation>, b: seq<Attestation>)
    ensures Merged(list, a + b) == Merged(Merged(list, a), b)
    decreases |b|
  {
    if b == [] {
      assert a + b == a;
    } else {
      assert (a + b)[..|a + b| - 1] == a + b[..|b| - 1];
      MergedInBatches(list, a, b[..|b| - 1]);
    }
  }
}

/** The part of a package that holds its attestations. */
module Packages {
  import opened AttestationTheory

  class Package {
    var attestations: seq<Attestation>

    constructor ()
      ensures attestations == []
    {
      attestations := [];
    }

    /** Every candidate folds into the first record it can, or becomes a record of its own. */
    method MergeAttestations(incoming: seq<Attestation>)
      modifies this
      ensures attestations == Merged(old(attestations), incoming)
    {
      for n := 0 to |incoming|
        invariant attestations == Merged(old(attestations), incoming[..n])
      {
        assert incoming[..n + 1][..n] == incoming[..n];
        var candidate := incoming[n];
        ghost var before := attestations;
        var merged, i := false, 0;
        while i < |attestations| && !merged
          invariant i <= |attestations| && |attestations| == |before|
          invariant !merged ==> attestations == before && i <= FirstSame(before, candidate)
          invariant merged ==> FirstSame(before, candidate) < |before| && attestations == Folded(before, candidate)
          decreases |before| - i, !merged
        {
          if DescribesSame(attestations[i], candidate) {
            attestations := attestations[i := Absorbed(attestations[i], candidate)];
            merged := true;
          } else {
            i := i + 1;
          }
        }
        if !merged {
          attestations := attestations + [candidate];
        }
      }
      assert incoming[..|incoming|] == incoming;
    }
  }
}
