/** What a merged set of external references means. */
module ReferenceTheory {
  import opened Orders
  import opened MergeClasses
  import opened KeyedFold
  import opened OriginTheory

  /** A gated field of a reference key: no NUL survives the gates. */
  type Token = s: string | NulFree(s)

  datatype RefKey = RefKey(category: Token, kind: Token, locator: Token)

  datatype Digest = Digest(algorithm: string, subject: string, value: string)

  datatype Reference = Reference(category: string, kind: string, locator: string, comment: string, hashes: seq<Digest>)

  /** The gates a reference passes field by field; a refused key takes the whole reference with it. */
  datatype RefGates = RefGates(key: (string, string, string) -> Option<RefKey>, digest: Digest -> Option<Digest>, comment: string -> string)

  ghost predicate Idempotents(g: RefGates)
  {
    && (forall c, t, l {:trigger g.key(c, t, l)} :: g.key(c, t, l).Some? ==>
          var k := g.key(c, t, l).value;
          g.key(k.category, k.kind, k.locator) == Some(k))
    && (forall d {:trigger g.digest(d)} :: g.digest(d).Some? ==> g.digest(g.digest(d).value) == g.digest(d))
    && (forall c {:trigger g.comment(c)} :: g.comment(g.comment(c)) == g.comment(c)) && g.comment("") == ""
  }

  // ----- Digests

  predicate DigestLess(a: Digest, b: Digest)
  {
    if a.algorithm != b.algorithm then Less(a.algorithm, b.algorithm)
    else if a.subject != b.subject then Less(a.subject, b.subject)
    else Less(a.value, b.value)
  }

  lemma DigestOrder()
    ensures StrictTotalOrder(DigestLess)
  {
    LessIsStrictTotal();
  }

  ghost function DigestSet(g: RefGates, hashes: seq<Digest>): set<Digest>
  {
    set d | d in hashes && g.digest(d).Some? :: g.digest(d).value
  }

  ghost function DigestList(digests: set<Digest>): seq<Digest>
  {
    DigestOrder();
    SortedSeq(DigestLess, digests)
  }

  lemma ListOfSet(digests: set<Digest>)
    ensures forall d :: d in DigestList(digests) <==> d in digests
  {
    DigestOrder();
    assert forall d :: d in DigestList(digests) <==> d in Elems(DigestList(digests));
  }

  // ----- One reference

  /** The smaller of two stated comments; an unstated one yields. */
  function ReconcileComments(existing: string, incoming: string): string
  {
    if incoming == "" then existing
    else if existing == "" then incoming
    else if Less(incoming, existing) then incoming
    else existing
  }

  lemma ReconcileLaws(a: string, b: string, c: string)
    ensures ReconcileComments(a, b) == ReconcileComments(b, a)
    ensures ReconcileComments(ReconcileComments(a, b), c) == ReconcileComments(a, ReconcileComments(b, c))
    ensures ReconcileComments(a, a) == a
  {
    LessIsStrictTotal();
  }

  datatype Evidence = Evidence(hashes: set<Digest>, comment: string)

  function MergeEvidence(a: Evidence, b: Evidence): Evidence
  {
    Evidence(a.hashes + b.hashes, ReconcileComments(a.comment, b.comment))
  }

  lemma EvidenceLaws()
    ensures Associative(MergeEvidence) && Commutative(MergeEvidence) && Idempotent(MergeEvidence)
  {
    forall a, b, c ensures MergeEvidence(MergeEvidence(a, b), c) == MergeEvidence(a, MergeEvidence(b, c)) {
      ReconcileLaws(a.comment, b.comment, c.comment);
    }
    forall a, b ensures MergeEvidence(a, b) == MergeEvidence(b, a) {
      ReconcileLaws(a.comment, b.comment, "");
    }
    forall a ensures MergeEvidence(a, a) == a {
      ReconcileLaws(a.comment, "", "");
    }
  }

  function KeyString(k: RefKey): string
  {
    k.category + "\0" + k.kind + "\0" + k.locator
  }

  predicate KeyLess(a: RefKey, b: RefKey)
  {
    Less(KeyString(a), KeyString(b))
  }

  lemma KeyStringIsFaithful(a: RefKey, b: RefKey)
    ensures KeyString(a) == KeyString(b) <==> a == b
  {
    if KeyString(a) == KeyString(b) {
      assert KeyString(a) == a.category + "\0" + (a.kind + "\0" + a.locator);
      assert KeyString(b) == b.category + "\0" + (b.kind + "\0" + b.locator);
      SplitAtNul(a.category, a.kind + "\0" + a.locator, b.category, b.kind + "\0" + b.locator);
      SplitAtNul(a.kind, a.locator, b.kind, b.locator);
    }
  }

  lemma KeyOrder()
    ensures StrictTotalOrder(KeyLess)
  {
    LessIsStrictTotal();
    forall a, b ensures a == b || KeyLess(a, b) || KeyLess(b, a) {
      KeyStringIsFaithful(a, b);
    }
  }

  type Entry = (RefKey, Evidence)

  /** What one witness contributes. */
  ghost function EntryOf(g: RefGates, r: Reference): Option<Entry>
  {
    var k := g.key(r.category, r.kind, r.locator);
    if k.None? then None else Some((k.value, Evidence(DigestSet(g, r.hashes), g.comment(r.comment))))
  }

  ghost function Entries(g: RefGates, list: seq<Reference>): seq<Entry>
  {
    if list == [] then []
    else
      var e := EntryOf(g, list[|list| - 1]);
      Entries(g, list[..|list| - 1]) + if e.Some? then [e.value] else []
  }

  ghost function Render(e: Entry): Reference
  {
    Reference(e.0.category, e.0.kind, e.0.locator, e.1.comment, DigestList(e.1.hashes))
  }

  ghost function Rendered(entries: seq<Entry>): seq<Reference>
  {
    seq(|entries|, i requires 0 <= i < |entries| => Render(entries[i]))
  }

  /** The published set: one record per key in key order, with everything its witnesses say. */
  ghost function Merged(g: RefGates, list: seq<Reference>): seq<Reference>
  {
    KeyOrder();
    Rendered(Canon(KeyLess, MergeEvidence, Entries(g, list)))
  }

  // ----- Laws

  lemma {:induction false} EntriesConcat(g: RefGates, a: seq<Reference>, b: seq<Reference>)
    ensures Entries(g, a + b) == Entries(g, a) + Entries(g, b)
    decreases |b|
  {
    if b == [] {
      assert a + b == a;
    } else {
      assert (a + b)[..|a + b| - 1] == a + b[..|b| - 1];
      EntriesConcat(g, a, b[..|b| - 1]);
    }
  }

  /** Everything in the entry has been through the gates. */
  ghost predicate GatedEntry(g: RefGates, e: Entry)
  {
    && g.key(e.0.category, e.0.kind, e.0.locator) == Some(e.0)
    && (forall d :: d in e.1.hashes ==> g.digest(d) == Some(d)) && g.comment(e.1.comment) == e.1.comment
  }

  lemma {:induction false} EntriesAreGated(g: RefGates, list: seq<Reference>)
    requires Idempotents(g)
    ensures forall e :: e in Entries(g, list) ==> GatedEntry(g, e)
    decreases |list|
  {
    if list != [] {
      EntriesAreGated(g, list[..|list| - 1]);
      var r := list[|list| - 1];
      var e := EntryOf(g, r);
      if e.Some? {
        forall d | d in e.value.1.hashes ensures g.digest(d) == Some(d) {
          var raw :| raw in r.hashes && g.digest(raw).Some? && g.digest(raw).value == d;
        }
        assert GatedEntry(g, e.value);
      }
    }
  }

  ghost predicate GatedMap(g: RefGates, m: map<RefKey, Evidence>)
  {
    forall k :: k in m ==> GatedEntry(g, (k, m[k]))
  }

  lemma {:induction false} FoldIsGated(g: RefGates, entries: seq<Entry>)
    requires g.comment("") == "" && forall e :: e in entries ==> GatedEntry(g, e)
    ensures GatedMap(g, FoldMap(MergeEvidence, entries))
    decreases |entries|
  {
    if entries != [] {
      var front, last := entries[..|entries| - 1], entries[|entries| - 1];
      assert last in entries && forall e :: e in front ==> e in entries;
      FoldIsGated(g, front);
      var m := FoldMap(MergeEvidence, front);
      assert GatedEntry(g, last);
      if last.0 in m {
        assert GatedEntry(g, (last.0, m[last.0]));
        assert GatedEntry(g, (last.0, MergeEvidence(m[last.0], last.1)));
      }
    }
  }

  /** A published record says again exactly what it was rendered from. */
  lemma RenderedEntry(g: RefGates, e: Entry)
    requires GatedEntry(g, e)
    ensures EntryOf(g, Render(e)) == Some(e)
  {
    ListOfSet(e.1.hashes);
    assert DigestSet(g, DigestList(e.1.hashes)) == e.1.hashes;
  }

  lemma {:induction false} EntriesOfRendered(g: RefGates, entries: seq<Entry>)
    requires forall e :: e in entries ==> GatedEntry(g, e)
    ensures Entries(g, Rendered(entries)) == entries
    decreases |entries|
  {
    if entries != [] {
      var front, last := entries[..|entries| - 1], entries[|entries| - 1];
      assert last in entries && (forall e :: e in front ==> e in entries) && entries == front + [last];
      EntriesOfRendered(g, front);
      RenderedEntry(g, last);
      assert Rendered(entries)[..|entries| - 1] == Rendered(front);
    }
  }

  lemma EntriesOfMerged(g: RefGates, list: seq<Reference>)
    requires Idempotents(g)
    ensures StrictTotalOrder(KeyLess)
    ensures Entries(g, Merged(g, list)) == Canon(KeyLess, MergeEvidence, Entries(g, list))
  {
    KeyOrder();
    EntriesAreGated(g, list);
    FoldIsGated(g, Entries(g, list));
    var c := Canon(KeyLess, MergeEvidence, Entries(g, list));
    forall e | e in c ensures GatedEntry(g, e) {
      var i :| 0 <= i < |c| && c[i] == e;
    }
    EntriesOfRendered(g, c);
  }

  /** Merging published sets gives what merging everything at once gives, so merging is associative. */
  lemma MergedConcat(g: RefGates, a: seq<Reference>, b: seq<Reference>)
    requires Idempotents(g)
    ensures Merged(g, Merged(g, a) + Merged(g, b)) == Merged(g, a + b)
  {
    EvidenceLaws();
    EntriesOfMerged(g, a);
    EntriesOfMerged(g, b);
    EntriesConcat(g, Merged(g, a), Merged(g, b));
    EntriesConcat(g, a, b);
    CanonConcat(KeyLess, MergeEvidence, Entries(g, a), Entries(g, b));
  }

  lemma MergedTwice(g: RefGates, a: seq<Reference>)
    requires Idempotents(g)
    ensures Merged(g, Merged(g, a)) == Merged(g, a)
    ensures Merged(g, a + a) == Merged(g, a)
  {
    EvidenceLaws();
    EntriesOfMerged(g, a);
    CanonTwice(KeyLess, MergeEvidence, Entries(g, a));
    EntriesConcat(g, a, a);
    CanonDoubled(KeyLess, MergeEvidence, Entries(g, a));
  }

  lemma MergeAssociates(g: RefGates, a: seq<Reference>, b: seq<Reference>, c: seq<Reference>)
    requires Idempotents(g)
    ensures Merged(g, Merged(g, a + b) + c) == Merged(g, a + Merged(g, b + c)) == Merged(g, a + b + c)
  {
    hide Merged;
    MergedTwice(g, a + b);
    MergedTwice(g, b + c);
    MergedConcat(g, Merged(g, a + b), c);
    MergedConcat(g, a + b, c);
    MergedConcat(g, a, Merged(g, b + c));
    MergedConcat(g, a, b + c);
    assert a + (b + c) == a + b + c;
  }

  /** Whatever order the witnesses arrive in. */
  lemma MergedIgnoresOrder(g: RefGates, a: seq<Reference>, b: seq<Reference>)
    requires multiset(a) == multiset(b)
    ensures Merged(g, a) == Merged(g, b)
  {
    EvidenceLaws();
    EntriesPermuted(g, a, b);
    FoldPermuted(MergeEvidence, Entries(g, a), Entries(g, b));
  }

  lemma {:induction false} EntriesPermuted(g: RefGates, a: seq<Reference>, b: seq<Reference>)
    requires multiset(a) == multiset(b)
    ensures multiset(Entries(g, a)) == multiset(Entries(g, b))
    decreases |b|
  {
    if b == [] {
      assert |multiset(a)| == |multiset(b)|;
    } else {
      var pre, post := TakeOut(a, b);
      var front, last := b[..|b| - 1], b[|b| - 1];
      EntriesPermuted(g, pre + post, front);
      EntriesConcat(g, pre + [last], post);
      EntriesConcat(g, pre, [last]);
      EntriesConcat(g, pre, post);
      assert b == front + [last];
      EntriesConcat(g, front, [last]);
    }
  }

  // ----- What one record holds

  /** Everything the entries of a key say: all their hashes, and the smallest comment any of them states. */
  ghost predicate SaysAll(entries: seq<Entry>, k: RefKey, e: Evidence)
  {
    && (forall d :: d in e.hashes <==> Claims(entries, k, d))
    && (forall i :: 0 <= i < |entries| && entries[i].0 == k && entries[i].1.comment != "" ==>
          e.comment != "" && !Less(entries[i].1.comment, e.comment))
    && (e.comment != "" ==> Says(entries, k, e.comment))
  }

  ghost predicate Claims(entries: seq<Entry>, k: RefKey, d: Digest)
  {
    exists i :: 0 <= i < |entries| && entries[i].0 == k && d in entries[i].1.hashes
  }

  ghost predicate Says(entries: seq<Entry>, k: RefKey, comment: string)
  {
    exists i :: 0 <= i < |entries| && entries[i].0 == k && entries[i].1.comment == comment
  }

  ghost predicate Mentions(entries: seq<Entry>, k: RefKey)
  {
    exists i :: 0 <= i < |entries| && entries[i].0 == k
  }

  lemma SnocMeans(front: seq<Entry>, last: Entry, k: RefKey)
    ensures Mentions(front + [last], k) <==> Mentions(front, k) || last.0 == k
    ensures forall d :: Claims(front + [last], k, d) <==> Claims(front, k, d) || (last.0 == k && d in last.1.hashes)
    ensures forall c :: Says(front + [last], k, c) <==> Says(front, k, c) || (last.0 == k && c == last.1.comment)
  {
    var entries := front + [last];
    assert entries[|front|] == last && forall i :: 0 <= i < |front| ==> entries[i] == front[i];
    forall d ensures Claims(entries, k, d) <==> Claims(front, k, d) || (last.0 == k && d in last.1.hashes) {
      if i :| 0 <= i < |front| && front[i].0 == k && d in front[i].1.hashes { assert entries[i].0 == k; }
    }
    forall c ensures Says(entries, k, c) <==> Says(front, k, c) || (last.0 == k && c == last.1.comment) {
      if i :| 0 <= i < |front| && front[i].0 == k && front[i].1.comment == c { assert entries[i].0 == k; }
    }
    if i :| 0 <= i < |front| && front[i].0 == k { assert entries[i].0 == k; }
  }

  lemma {:induction false} FoldSaysAll(entries: seq<Entry>, k: RefKey)
    ensures k in FoldMap(MergeEvidence, entries) <==> Mentions(entries, k)
    ensures k in FoldMap(MergeEvidence, entries) ==> SaysAll(entries, k, FoldMap(MergeEvidence, entries)[k])
    decreases |entries|
  {
    if entries != [] {
      var front, last := entries[..|entries| - 1], entries[|entries| - 1];
      assert entries == front + [last];
      FoldSaysAll(front, k);
      SnocMeans(front, last, k);
      if Mentions(front, k) {
        SaysAllGrows(front, last, k, FoldMap(MergeEvidence, front)[k]);
      } else if last.0 == k {
        SaysAllStarts(front, last, k);
      }
    }
  }

  lemma SaysAllStarts(front: seq<Entry>, last: Entry, k: RefKey)
    requires !Mentions(front, k) && last.0 == k
    ensures SaysAll(front + [last], k, last.1)
  {
    SnocMeans(front, last, k);
    LessIrreflexive(last.1.comment);
    forall d ensures !Claims(front, k, d) {
    }
    forall i | 0 <= i < |front| ensures front[i].0 != k {
    }
  }

  lemma SaysAllGrows(front: seq<Entry>, last: Entry, k: RefKey, e: Evidence)
    requires SaysAll(front, k, e)
    ensures SaysAll(front + [last], k, if last.0 == k then MergeEvidence(e, last.1) else e)
  {
    SnocMeans(front, last, k);
    LessIsStrictTotal();
    var entries := front + [last];
    assert forall i :: 0 <= i < |front| ==> entries[i] == front[i];
  }

  /** One record per key, in strictly increasing key order, holding the sorted union of its witnesses' hashes and the
      smallest comment they state. */
  lemma RecordsSayAll(g: RefGates, list: seq<Reference>, entries: seq<Entry>)
    requires entries == Entries(g, list)
    ensures StrictTotalOrder(KeyLess)
    ensures var c := Canon(KeyLess, MergeEvidence, entries);
            && Merged(g, list) == Rendered(c) && KeysIncrease(KeyLess, c)
            && (forall i :: 0 <= i < |c| ==> SaysAll(entries, c[i].0, c[i].1))
            && (forall k :: Mentions(entries, k) ==> exists i :: 0 <= i < |c| && c[i].0 == k)
  {
    KeyOrder();
    var m := FoldMap(MergeEvidence, entries);
    var c := Listing(KeyLess, m);
    ListingIncreases(KeyLess, m);
    forall i | 0 <= i < |c| ensures SaysAll(entries, c[i].0, c[i].1) {
      FoldSaysAll(entries, c[i].0);
    }
    forall k | Mentions(entries, k) ensures exists i :: 0 <= i < |c| && c[i].0 == k {
      FoldSaysAll(entries, k);
      assert (k, m[k]) in c;
    }
  }

  // ----- The published set, record by record

  /** The reference passes its key gate as the key of the record. */
  ghost predicate WitnessOf(g: RefGates, list: seq<Reference>, r: Reference, x: Reference)
  {
    x in list && g.key(x.category, x.kind, x.locator).Some?
    && var k := g.key(x.category, x.kind, x.locator).value; k.category == r.category && k.kind == r.kind && k.locator == r.locator
  }

  /** Some witness states a digest that passes its gate as this one. */
  ghost predicate DigestClaimed(g: RefGates, list: seq<Reference>, r: Reference, d: Digest)
  {
    exists x, h :: WitnessOf(g, list, r, x) && h in x.hashes && g.digest(h) == Some(d)
  }

  ghost predicate CommentStated(g: RefGates, list: seq<Reference>, r: Reference, comment: string)
  {
    exists x :: WitnessOf(g, list, r, x) && g.comment(x.comment) == comment
  }

  /** Exactly the digests its witnesses state, by algorithm, subject and value, each once, and the smallest comment any
      of them states. */
  ghost predicate RecordMeans(g: RefGates, list: seq<Reference>, r: Reference)
  {
    && (exists x :: WitnessOf(g, list, r, x))
    && (forall d :: d in r.hashes <==> DigestClaimed(g, list, r, d))
    && (forall i, j :: 0 <= i < j < |r.hashes| ==> DigestBefore(r.hashes[i], r.hashes[j]))
    && (forall c :: CommentStated(g, list, r, c) && c != "" ==> r.comment != "" && !Less(c, r.comment))
    && (r.comment != "" ==> CommentStated(g, list, r, r.comment))
  }

  ghost predicate DigestBefore(a: Digest, b: Digest)
  {
    || Less(a.algorithm, b.algorithm)
    || (a.algorithm == b.algorithm && Less(a.subject, b.subject))
    || (a.algorithm == b.algorithm && a.subject == b.subject && Less(a.value, b.value))
  }

  /** Every record means its witnesses, every key has a record, and keys ascend by category, type and locator. */
  ghost predicate SetMeans(g: RefGates, list: seq<Reference>, m: seq<Reference>)
  {
    && (forall i :: 0 <= i < |m| ==> RecordMeans(g, list, m[i]))
    && (forall x :: x in list && g.key(x.category, x.kind, x.locator).Some? ==> exists i :: 0 <= i < |m| && WitnessOf(g, list, m[i], x))
    && (forall i, j :: 0 <= i < j < |m| ==>
          Less(m[i].category + "\0" + m[i].kind + "\0" + m[i].locator, m[j].category + "\0" + m[j].kind + "\0" + m[j].locator))
  }

  lemma MergedMeans(g: RefGates, list: seq<Reference>)
    ensures SetMeans(g, list, Merged(g, list))
  {
    var entries := Entries(g, list);
    RecordsSayAll(g, list, entries);
    EntryMembers(g, list);
    var c := Canon(KeyLess, MergeEvidence, entries);
    forall i | 0 <= i < |c| ensures Mentions(entries, c[i].0) {
      CanonMentions(entries, i);
    }
    hide *;
    RecordsMean(g, list, entries, c);
  }

  lemma RecordsMean(g: RefGates, list: seq<Reference>, entries: seq<Entry>, c: seq<Entry>)
    requires forall f :: f in entries <==> exists x :: x in list && EntryOf(g, x) == Some(f)
    requires KeysIncrease(KeyLess, c) && forall i :: 0 <= i < |c| ==> Mentions(entries, c[i].0) && SaysAll(entries, c[i].0, c[i].1)
    requires forall k :: Mentions(entries, k) ==> exists i :: 0 <= i < |c| && c[i].0 == k
    ensures SetMeans(g, list, Rendered(c))
  {
    var m := Rendered(c);
    hide RecordMeans, SaysAll;
    forall i | 0 <= i < |m| ensures RecordMeans(g, list, m[i]) {
      RenderedMeans(g, list, entries, c[i]);
    }
    forall x | x in list && g.key(x.category, x.kind, x.locator).Some? ensures exists i :: 0 <= i < |m| && WitnessOf(g, list, m[i], x) {
      var i := RecordFor(g, list, entries, c, x);
    }
    forall i, j | 0 <= i < j < |m|
      ensures Less(m[i].category + "\0" + m[i].kind + "\0" + m[i].locator, m[j].category + "\0" + m[j].kind + "\0" + m[j].locator)
    {
      assert KeyLess(c[i].0, c[j].0);
    }
  }

  lemma RecordFor(g: RefGates, list: seq<Reference>, entries: seq<Entry>, c: seq<Entry>, x: Reference) returns (i: nat)
    requires forall f :: f in entries <==> exists x :: x in list && EntryOf(g, x) == Some(f)
    requires forall k :: Mentions(entries, k) ==> exists i :: 0 <= i < |c| && c[i].0 == k
    requires x in list && g.key(x.category, x.kind, x.locator).Some?
    ensures i < |Rendered(c)| && WitnessOf(g, list, Rendered(c)[i], x)
  {
    var e := EntryOf(g, x).value;
    assert e in entries;
    var j :| 0 <= j < |entries| && entries[j] == e;
    assert Mentions(entries, e.0);
    i :| 0 <= i < |c| && c[i].0 == e.0;
  }

  lemma CanonMentions(entries: seq<Entry>, i: nat)
    requires StrictTotalOrder(KeyLess) && i < |Canon(KeyLess, MergeEvidence, entries)|
    ensures Mentions(entries, Canon(KeyLess, MergeEvidence, entries)[i].0)
  {
    FoldSaysAll(entries, Canon(KeyLess, MergeEvidence, entries)[i].0);
  }

  lemma {:induction false} EntryMembers(g: RefGates, list: seq<Reference>)
    ensures forall e :: e in Entries(g, list) <==> exists x :: x in list && EntryOf(g, x) == Some(e)
    decreases |list|
  {
    if list != [] {
      var front, last := list[..|list| - 1], list[|list| - 1];
      EntryMembers(g, front);
      assert last in list && forall x :: x in list <==> x in front || x == last;
    }
  }

  lemma RenderedMeans(g: RefGates, list: seq<Reference>, entries: seq<Entry>, e: Entry)
    requires forall f :: f in entries <==> exists x :: x in list && EntryOf(g, x) == Some(f)
    requires Mentions(entries, e.0) && SaysAll(entries, e.0, e.1)
    ensures RecordMeans(g, list, Render(e))
  {
    var r := Render(e);
    forall x ensures WitnessOf(g, list, r, x) <==> x in list && EntryOf(g, x).Some? && EntryOf(g, x).value.0 == e.0 {
    }
    var i :| 0 <= i < |entries| && entries[i].0 == e.0;
    assert entries[i] in entries;
    var w :| w in list && EntryOf(g, w) == Some(entries[i]);
    assert WitnessOf(g, list, r, w);
    HashesMean(g, list, entries, e);
    CommentMeans(g, list, entries, e);
  }

  lemma HashesMean(g: RefGates, list: seq<Reference>, entries: seq<Entry>, e: Entry)
    requires forall f :: f in entries <==> exists x :: x in list && EntryOf(g, x) == Some(f)
    requires SaysAll(entries, e.0, e.1)
    ensures forall d :: d in Render(e).hashes <==> DigestClaimed(g, list, Render(e), d)
    ensures forall i, j :: 0 <= i < j < |Render(e).hashes| ==> DigestBefore(Render(e).hashes[i], Render(e).hashes[j])
  {
    var r := Render(e);
    ListOfSet(e.1.hashes);
    DigestOrder();
    SortedSeqIncreases(DigestLess, e.1.hashes);
    forall d ensures Claims(entries, e.0, d) <==> DigestClaimed(g, list, r, d) {
      if Claims(entries, e.0, d) {
        var i :| 0 <= i < |entries| && entries[i].0 == e.0 && d in entries[i].1.hashes;
        assert entries[i] in entries;
        var x :| x in list && EntryOf(g, x) == Some(entries[i]);
        var h :| h in x.hashes && g.digest(h) == Some(d);
        assert WitnessOf(g, list, r, x);
      }
      if DigestClaimed(g, list, r, d) {
        var x, h :| WitnessOf(g, list, r, x) && h in x.hashes && g.digest(h) == Some(d);
        var f := EntryOf(g, x).value;
        assert f in entries;
        var i :| 0 <= i < |entries| && entries[i] == f;
        assert f.0 == e.0 && d in f.1.hashes;
      }
    }
  }

  lemma CommentMeans(g: RefGates, list: seq<Reference>, entries: seq<Entry>, e: Entry)
    requires forall f :: f in entries <==> exists x :: x in list && EntryOf(g, x) == Some(f)
    requires SaysAll(entries, e.0, e.1)
    ensures forall c :: CommentStated(g, list, Render(e), c) && c != "" ==> Render(e).comment != "" && !Less(c, Render(e).comment)
    ensures Render(e).comment != "" ==> CommentStated(g, list, Render(e), Render(e).comment)
  {
    var r := Render(e);
    forall c ensures Says(entries, e.0, c) <==> CommentStated(g, list, r, c) {
      if Says(entries, e.0, c) {
        var i :| 0 <= i < |entries| && entries[i].0 == e.0 && entries[i].1.comment == c;
        assert entries[i] in entries;
        var x :| x in list && EntryOf(g, x) == Some(entries[i]);
        assert WitnessOf(g, list, r, x);
      }
      if CommentStated(g, list, r, c) {
        var x :| WitnessOf(g, list, r, x) && g.comment(x.comment) == c;
        var f := EntryOf(g, x).value;
        assert f in entries;
        var i :| 0 <= i < |entries| && entries[i] == f;
      }
    }
  }
}

/** The merge of model/external_reference.go and the digest union of model/graph.go. */
module References {
  import opened Orders
  import opened MergeClasses
  import opened KeyedFold
  import opened ReferenceTheory

  /** The sorted union of two digest lists, each digest through its gate. */
  method MergeDigestSet(existing: seq<Digest>, additions: seq<Digest>, g: RefGates) returns (out: seq<Digest>)
    ensures out == DigestList(DigestSet(g, existing + additions))
  {
    var all := existing + additions;
    var merged: seq<Digest> := [];
    for i := 0 to |all|
      invariant Distinct(merged) && Elems(merged) == DigestSet(g, all[..i])
    {
      TakeSnoc(all, i);
      DigestSnoc(g, all[..i], all[i]);
      var normalized := g.digest(all[i]);
      if normalized.Some? && normalized.value !in merged {
        merged := merged + [normalized.value];
      }
    }
    TakeAll(all);
    DistinctComparable(merged);
    out := Sort(DigestLess, merged);
    SortedDigests(merged, out);
  }

  lemma DigestSnoc(g: RefGates, hashes: seq<Digest>, d: Digest)
    ensures DigestSet(g, hashes + [d]) == DigestSet(g, hashes) + if g.digest(d).Some? then {g.digest(d).value} else {}
  {
    assert forall x :: x in hashes + [d] <==> x in hashes || x == d;
  }

  lemma DistinctComparable(merged: seq<Digest>)
    requires Distinct(merged)
    ensures StrictOrder(DigestLess) && Comparable(DigestLess, merged)
  {
    DigestOrder();
  }

  lemma SortedDigests(merged: seq<Digest>, out: seq<Digest>)
    requires Increasing(DigestLess, out) && multiset(out) == multiset(merged)
    ensures out == DigestList(Elems(merged))
  {
    DigestOrder();
    forall d ensures d in out <==> d in merged {
      assert d in multiset(out) <==> d in multiset(merged);
    }
    assert Elems(out) == Elems(merged);
    SortedSeqIncreases(DigestLess, Elems(merged));
    IncreasingIsUnique(DigestLess, out, DigestList(Elems(merged)));
  }

  /** The gated form of one reference, as the record it starts. */
  method Normalized(r: Reference, g: RefGates) returns (out: Option<Reference>)
    ensures out == if EntryOf(g, r).Some? then Some(Render(EntryOf(g, r).value)) else None
  {
    var k := g.key(r.category, r.kind, r.locator);
    if k.None? {
      return None;
    }
    var hashes := MergeDigestSet([], r.hashes, g);
    assert [] + r.hashes == r.hashes;
    out := Some(Reference(k.value.category, k.value.kind, k.value.locator, g.comment(r.comment), hashes));
  }

  function ReferenceKey(r: Reference): string
  {
    r.category + "\0" + r.kind + "\0" + r.locator
  }

  /** Each key string names the record that holds it. */
  ghost predicate Indexed(seen: map<string, nat>, entries: seq<Entry>)
  {
    && (forall s :: s in seen ==> seen[s] < |entries| && KeyString(entries[seen[s]].0) == s)
    && (forall i :: 0 <= i < |entries| ==> KeyString(entries[i].0) in seen && seen[KeyString(entries[i].0)] == i)
  }

  /** The record list stands for the entries folded so far. */
  ghost predicate Folding(g: RefGates, items: seq<Entry>, merged: seq<Reference>, seen: map<string, nat>, done: seq<Entry>)
  {
    && Records(items, FoldMap(MergeEvidence, done)) && merged == Rendered(items) && Indexed(seen, items)
    && forall e :: e in items ==> GatedEntry(g, e)
  }

  lemma FoldStart(g: RefGates)
    ensures Folding(g, [], [], map[], [])
  {
  }

  lemma FoldSnoc(done: seq<Entry>, e: Entry)
    ensures FoldMap(MergeEvidence, done + [e]) == Put(MergeEvidence, FoldMap(MergeEvidence, done), e.0, e.1)
  {
    assert (done + [e])[..|done|] == done;
  }

  lemma FoldNew(g: RefGates, items: seq<Entry>, merged: seq<Reference>, seen: map<string, nat>, done: seq<Entry>, e: Entry)
    requires Folding(g, items, merged, seen, done) && GatedEntry(g, e) && KeyString(e.0) !in seen
    ensures Folding(g, items + [e], merged + [Render(e)], seen[KeyString(e.0) := |merged|], done + [e])
    ensures ReferenceKey(Render(e)) == KeyString(e.0)
  {
    FoldSnoc(done, e);
    forall i | 0 <= i < |items| ensures items[i].0 != e.0 {
      assert KeyString(items[i].0) in seen;
    }
    RecordsAppend(MergeEvidence, items, FoldMap(MergeEvidence, done), e);
    hide Render;
    assert Rendered(items + [e]) == Rendered(items) + [Render(e)];
  }

  /** Where a known key's record stands, and what it renders to. */
  lemma FoldHit(g: RefGates, items: seq<Entry>, merged: seq<Reference>, seen: map<string, nat>, done: seq<Entry>, e: Entry)
    requires Folding(g, items, merged, seen, done) && KeyString(e.0) in seen
    ensures var at := seen[KeyString(e.0)];
            at < |items| == |merged| && items[at].0 == e.0 && merged[at] == Render(items[at]) && GatedEntry(g, items[at])
  {
    var at := seen[KeyString(e.0)];
    KeyStringIsFaithful(items[at].0, e.0);
    assert items[at] in items;
  }

  lemma FoldUpdate(g: RefGates, items: seq<Entry>, merged: seq<Reference>, seen: map<string, nat>, done: seq<Entry>, e: Entry, at: nat)
    requires Folding(g, items, merged, seen, done) && at < |items| && items[at].0 == e.0 && |merged| == |items|
    requires GatedEntry(g, e) && GatedEntry(g, items[at])
    ensures var joined := (e.0, MergeEvidence(items[at].1, e.1));
            Folding(g, items[at := joined], merged[at := Render(joined)], seen, done + [e])
  {
    var joined := (e.0, MergeEvidence(items[at].1, e.1));
    FoldSnoc(done, e);
    RecordsUpdate(MergeEvidence, items, FoldMap(MergeEvidence, done), at, e);
    JoinedIsGated(g, items[at], e);
    RenderedUpdate(items, at, joined);
    hide Render, Rendered, MergeEvidence, GatedEntry, Records;
    assert forall f :: f in items[at := joined] ==> f == joined || f in items;
  }

  lemma JoinedIsGated(g: RefGates, a: Entry, b: Entry)
    requires GatedEntry(g, a) && GatedEntry(g, b) && a.0 == b.0
    ensures GatedEntry(g, (b.0, MergeEvidence(a.1, b.1)))
  {
  }

  lemma RenderedUpdate(items: seq<Entry>, at: nat, e: Entry)
    requires at < |items|
    ensures Rendered(items[at := e]) == Rendered(items)[at := Render(e)]
  {
    hide Render;
  }

  /** Merging two records of one key renders the merged evidence. */
  lemma RenderJoined(g: RefGates, a: Entry, b: Entry)
    requires GatedEntry(g, a) && GatedEntry(g, b) && a.0 == b.0
    ensures Render((b.0, MergeEvidence(a.1, b.1))) ==
            Render(a).(hashes := DigestList(DigestSet(g, Render(a).hashes + Render(b).hashes)),
                       comment := ReconcileComments(Render(a).comment, Render(b).comment))
  {
    ListOfSet(a.1.hashes);
    ListOfSet(b.1.hashes);
    assert DigestSet(g, Render(a).hashes + Render(b).hashes) == a.1.hashes + b.1.hashes;
  }

  method FoldReference(normalized: Reference, g: RefGates, merged0: seq<Reference>, seen0: map<string, nat>,
                       ghost items0: seq<Entry>, ghost done: seq<Entry>, ghost e: Entry)
    returns (merged: seq<Reference>, seen: map<string, nat>, ghost items: seq<Entry>)
    requires Folding(g, items0, merged0, seen0, done) && GatedEntry(g, e) && normalized == Render(e)
    ensures Folding(g, items, merged, seen, done + [e])
  {
    hide *;
    merged, seen, items := merged0, seen0, items0;
    KeyOfRender(e);
    var key := ReferenceKey(normalized);
    if key in seen {
      var at := seen[key];
      FoldHit(g, items, merged, seen, done, e);
      FoldUpdate(g, items, merged, seen, done, e, at);
      RenderJoined(g, items[at], e);
      var hashes := MergeDigestSet(merged[at].hashes, normalized.hashes, g);
      var record := merged[at].(hashes := hashes, comment := ReconcileComments(merged[at].comment, normalized.comment));
      merged := merged[at := record];
      items := items[at := (e.0, MergeEvidence(items[at].1, e.1))];
    } else {
      FoldNew(g, items, merged, seen, done, e);
      seen := seen[key := |merged|];
      merged := merged + [normalized];
      items := items + [e];
    }
  }

  lemma KeyOfRender(e: Entry)
    ensures ReferenceKey(Render(e)) == KeyString(e.0)
  {
  }

  lemma NextEntry(g: RefGates, all: seq<Reference>, i: nat)
    requires i < |all| && Idempotents(g)
    ensures EntryOf(g, all[i]).None? ==> Entries(g, all[..i + 1]) == Entries(g, all[..i])
    ensures EntryOf(g, all[i]).Some? ==> Entries(g, all[..i + 1]) == Entries(g, all[..i]) + [EntryOf(g, all[i]).value]
                                         && GatedEntry(g, EntryOf(g, all[i]).value)
  {
    assert all[..i + 1][..i] == all[..i];
    EntriesAreGated(g, all[..i + 1]);
    if EntryOf(g, all[i]).Some? {
      assert EntryOf(g, all[i]).value in Entries(g, all[..i + 1]);
    }
  }

  /** One sorted record per key, however the witnesses arrive. */
  method MergeExternalReferences(existing: seq<Reference>, additions: seq<Reference>, g: RefGates) returns (out: seq<Reference>)
    requires Idempotents(g)
    ensures out == Merged(g, existing + additions)
  {
    hide *;
    var all := existing + additions;
    var merged: seq<Reference>, seen: map<string, nat> := [], map[];
    ghost var items: seq<Entry> := [];
    FoldStart(g);
    NoEntries(g, all);
    for i := 0 to |all|
      invariant Folding(g, items, merged, seen, Entries(g, all[..i]))
    {
      NextEntry(g, all, i);
      var normalized := Normalized(all[i], g);
      if normalized.Some? {
        merged, seen, items := FoldReference(normalized.value, g, merged, seen, items, Entries(g, all[..i]), EntryOf(g, all[i]).value);
      }
    }
    TakeAll(all);
    out := SortReferences(merged, g, items, seen, all);
  }

  lemma NoEntries(g: RefGates, all: seq<Reference>)
    ensures Entries(g, all[..0]) == []
  {
  }

  predicate RefLess(a: Reference, b: Reference)
  {
    Less(ReferenceKey(a), ReferenceKey(b))
  }

  method SortReferences(merged: seq<Reference>, ghost g: RefGates, ghost items: seq<Entry>, ghost seen: map<string, nat>, ghost all: seq<Reference>)
    returns (out: seq<Reference>)
    requires Folding(g, items, merged, seen, Entries(g, all))
    ensures out == Merged(g, all)
  {
    hide *;
    KeysDiffer(g, items, merged, seen, Entries(g, all));
    out := Sort(RefLess, merged);
    SortedIsMerged(g, items, merged, seen, all, out);
  }

  lemma KeysDiffer(g: RefGates, items: seq<Entry>, merged: seq<Reference>, seen: map<string, nat>, done: seq<Entry>)
    requires Folding(g, items, merged, seen, done)
    ensures StrictOrder(RefLess) && Comparable(RefLess, merged)
  {
    LessIsStrictTotal();
    forall i, j | 0 <= i < j < |merged| ensures RefLess(merged[i], merged[j]) || RefLess(merged[j], merged[i]) {
      KeyStringIsFaithful(items[i].0, items[j].0);
      KeyOfRender(items[i]);
      KeyOfRender(items[j]);
    }
  }

  /** Sorting the rendered records is rendering the sorted ones. */
  lemma SortedIsMerged(g: RefGates, items: seq<Entry>, merged: seq<Reference>, seen: map<string, nat>, all: seq<Reference>, out: seq<Reference>)
    requires Folding(g, items, merged, seen, Entries(g, all))
    requires Increasing(RefLess, out) && multiset(out) == multiset(merged)
    ensures out == Merged(g, all)
  {
    KeyOrder();
    var m := FoldMap(MergeEvidence, Entries(g, all));
    var c := Listing(KeyLess, m);
    ListingIncreases(KeyLess, m);
    SameRecords(items, c, m);
    SameRendered(items, c);
    RenderedIncreases(c);
    hide *;
    SameElements(out, merged, Rendered(c));
    IncreasingIsUnique(RefLess, out, Rendered(c));
  }

  lemma SameElements(out: seq<Reference>, merged: seq<Reference>, rendered: seq<Reference>)
    requires multiset(out) == multiset(merged) && forall r :: r in merged <==> r in rendered
    ensures Elems(out) == Elems(rendered)
  {
    forall r ensures r in out <==> r in rendered {
      assert r in multiset(out) <==> r in multiset(merged);
    }
  }

  lemma RenderedIncreases(c: seq<Entry>)
    requires forall i, j :: 0 <= i < j < |c| ==> KeyLess(c[i].0, c[j].0)
    ensures StrictOrder(RefLess) && Increasing(RefLess, Rendered(c))
  {
    LessIsStrictTotal();
    forall i, j | 0 <= i < j < |c| ensures RefLess(Rendered(c)[i], Rendered(c)[j]) {
      KeyOfRender(c[i]);
      KeyOfRender(c[j]);
    }
  }

  lemma SameRecords(items: seq<Entry>, c: seq<Entry>, m: map<RefKey, Evidence>)
    requires Records(items, m) && (forall i :: 0 <= i < |c| ==> c[i].0 in m && c[i] == (c[i].0, m[c[i].0])) && forall k :: k in m ==> (k, m[k]) in c
    ensures forall e :: e in items <==> e in c
  {
    forall e | e in c ensures e in items {
      var j :| 0 <= j < |c| && c[j] == e;
      var i :| 0 <= i < |items| && items[i].0 == e.0;
      assert items[i] == (items[i].0, items[i].1) == e;
    }
    forall e | e in items ensures e in c {
      var i :| 0 <= i < |items| && items[i] == e;
      assert e == (e.0, m[e.0]);
    }
  }

  lemma SameRendered(a: seq<Entry>, b: seq<Entry>)
    requires forall e :: e in a <==> e in b
    ensures forall r :: r in Rendered(a) <==> r in Rendered(b)
  {
    forall r | r in Rendered(a) ensures r in Rendered(b) {
      var i :| 0 <= i < |a| && Rendered(a)[i] == r;
      assert a[i] in b;
      var j :| 0 <= j < |b| && b[j] == a[i];
      assert Rendered(b)[j] == r;
    }
    forall r | r in Rendered(b) ensures r in Rendered(a) {
      var i :| 0 <= i < |b| && Rendered(b)[i] == r;
      assert b[i] in a;
      var j :| 0 <= j < |a| && a[j] == b[i];
      assert Rendered(a)[j] == r;
    }
  }
}
