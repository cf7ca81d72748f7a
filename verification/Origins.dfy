/** What a merged list of origins means: first occurrences, without the entries a pinned one supersedes. */
module OriginTheory {
  import opened MergeClasses

  /** An artifact, or a repository with an optional revision. */
  datatype Origin = Origin(artifact: string, repository: string, revision: string)

  /** The publication gates of one origin: none when nothing publishable survives. */
  type Gate = Origin -> Option<Origin>

  predicate NulFree(s: string)
  {
    '\0' !in s
  }

  /** Gated values pass unchanged, and no NUL survives the gates. */
  ghost predicate Gates(gate: Gate)
  {
    forall o {:trigger gate(o)} :: gate(o).Some? ==>
      && gate(gate(o).value) == Some(gate(o).value)
      && NulFree(gate(o).value.artifact) && NulFree(gate(o).value.repository) && NulFree(gate(o).value.revision)
  }

  type Place = (string, string)

  /** The location an origin describes, without its precision. */
  function PlaceOf(o: Origin): Place
  {
    (o.repository, o.artifact)
  }

  predicate Pins(o: Origin)
  {
    o.revision != "" && o.repository != ""
  }

  predicate Floats(o: Origin)
  {
    o.revision == "" && o.repository != ""
  }

  ghost function Pinned(list: seq<Origin>): set<Place>
  {
    set o | o in list && Pins(o) :: PlaceOf(o)
  }

  /** A repository origin without a revision whose place another entry pins. */
  ghost predicate Superseded(list: seq<Origin>, o: Origin)
  {
    Floats(o) && PlaceOf(o) in Pinned(list)
  }

  ghost function Gated(gate: Gate, list: seq<Origin>): seq<Origin>
  {
    if list == [] then []
    else
      var last := list[|list| - 1];
      Gated(gate, list[..|list| - 1]) + if gate(last).Some? then [gate(last).value] else []
  }

  /** Each value where it first occurs. */
  ghost function Firsts(list: seq<Origin>): seq<Origin>
  {
    if list == [] then []
    else
      var front, last := list[..|list| - 1], list[|list| - 1];
      Firsts(front) + if last in front then [] else [last]
  }

  /** The entries that do not float at one of `places`. */
  ghost function Keep(places: set<Place>, list: seq<Origin>): seq<Origin>
  {
    if list == [] then []
    else
      var last := list[|list| - 1];
      Keep(places, list[..|list| - 1]) + if Floats(last) && PlaceOf(last) in places then [] else [last]
  }

  ghost function Settled(list: seq<Origin>): seq<Origin>
  {
    Keep(Pinned(list), list)
  }

  /** The list a merge publishes. */
  ghost function Published(gate: Gate, list: seq<Origin>): seq<Origin>
  {
    Settled(Firsts(Gated(gate, list)))
  }

  // ----- Laws of the three passes

  lemma {:induction false} GatedConcat(gate: Gate, a: seq<Origin>, b: seq<Origin>)
    ensures Gated(gate, a + b) == Gated(gate, a) + Gated(gate, b)
    decreases |b|
  {
    if b == [] {
      assert a + b == a;
    } else {
      assert (a + b)[..|a + b| - 1] == a + b[..|b| - 1];
      GatedConcat(gate, a, b[..|b| - 1]);
    }
  }

  lemma {:induction false} KeepConcat(places: set<Place>, a: seq<Origin>, b: seq<Origin>)
    ensures Keep(places, a + b) == Keep(places, a) + Keep(places, b)
    decreases |b|
  {
    if b == [] {
      assert a + b == a;
    } else {
      assert (a + b)[..|a + b| - 1] == a + b[..|b| - 1];
      KeepConcat(places, a, b[..|b| - 1]);
    }
  }

  lemma {:induction false} KeepMembers(places: set<Place>, list: seq<Origin>)
    ensures forall o :: o in Keep(places, list) <==> o in list && !(Floats(o) && PlaceOf(o) in places)
    decreases |list|
  {
    if list != [] {
      KeepMembers(places, list[..|list| - 1]);
      assert list == list[..|list| - 1] + [list[|list| - 1]];
    }
  }

  lemma {:induction false} FirstsMembers(list: seq<Origin>)
    ensures forall o :: o in Firsts(list) <==> o in list
    decreases |list|
  {
    if list != [] {
      FirstsMembers(list[..|list| - 1]);
      assert list == list[..|list| - 1] + [list[|list| - 1]];
    }
  }

  lemma FirstsSnoc(list: seq<Origin>, o: Origin)
    ensures Firsts(list + [o]) == Firsts(list) + if o in list then [] else [o]
  {
    assert (list + [o])[..|list|] == list;
  }

  lemma KeepSnoc(places: set<Place>, list: seq<Origin>, o: Origin)
    ensures Keep(places, list + [o]) == Keep(places, list) + if Floats(o) && PlaceOf(o) in places then [] else [o]
  {
    assert (list + [o])[..|list|] == list;
  }

  /** Keeping and taking first occurrences commute. */
  lemma {:induction false} KeepFirsts(places: set<Place>, list: seq<Origin>)
    ensures Keep(places, Firsts(list)) == Firsts(Keep(places, list))
    decreases |list|
  {
    if list != [] {
      var front, last := list[..|list| - 1], list[|list| - 1];
      assert list == front + [last];
      KeepFirsts(places, front);
      KeepFirstsStep(places, front, last);
    }
  }

  lemma KeepFirstsStep(places: set<Place>, front: seq<Origin>, last: Origin)
    requires Keep(places, Firsts(front)) == Firsts(Keep(places, front))
    ensures Keep(places, Firsts(front + [last])) == Firsts(Keep(places, front + [last]))
  {
    hide *;
    KeepMembers(places, front);
    FirstsSnoc(front, last);
    KeepSnoc(places, front, last);
    PlusNothing(Firsts(front));
    PlusNothing(Keep(places, front));
    if last in front {
      if last in Keep(places, front) {
        FirstsSnoc(Keep(places, front), last);
        PlusNothing(Firsts(Keep(places, front)));
      }
    } else {
      KeepSnoc(places, Firsts(front), last);
      PlusNothing(Keep(places, Firsts(front)));
      FirstsSnoc(Keep(places, front), last);
    }
  }

  lemma PlusNothing(list: seq<Origin>)
    ensures list + [] == list
  {
  }

  lemma {:induction false} KeepTwice(more: set<Place>, some: set<Place>, list: seq<Origin>)
    requires some <= more
    ensures Keep(more, Keep(some, list)) == Keep(more, list)
    decreases |list|
  {
    if list != [] {
      var front, last := list[..|list| - 1], list[|list| - 1];
      KeepTwice(more, some, front);
      KeepSnoc(more, Keep(some, front), last);
      assert Keep(some, front) + [] == Keep(some, front);
    }
  }

  /** First occurrences of a concatenation depend only on those of its parts. */
  lemma {:induction false} FirstsOfFirsts(a: seq<Origin>, b: seq<Origin>)
    ensures Firsts(Firsts(a) + Firsts(b)) == Firsts(a + b)
    decreases |b|
  {
    if b == [] {
      assert a + b == a && Firsts(a) + Firsts(b) == Firsts(a);
      FirstsFixed(a);
    } else {
      var front, last := b[..|b| - 1], b[|b| - 1];
      assert b == front + [last];
      FirstsOfFirsts(a, front);
      FirstsOneMore(a, front, last);
    }
  }

  lemma FirstsOneMore(a: seq<Origin>, front: seq<Origin>, last: Origin)
    requires Firsts(Firsts(a) + Firsts(front)) == Firsts(a + front)
    ensures Firsts(Firsts(a) + Firsts(front + [last])) == Firsts(a + (front + [last]))
  {
    hide *;
    assert a + (front + [last]) == (a + front) + [last];
    FirstsSnoc(a + front, last);
    FirstsMembers(a);
    FirstsMembers(front);
    FirstsSnoc(front, last);
    if last in front {
      PlusNothing(Firsts(front));
      PlusNothing(Firsts(a + front));
    } else {
      assert Firsts(a) + (Firsts(front) + [last]) == (Firsts(a) + Firsts(front)) + [last];
      FirstsSnoc(Firsts(a) + Firsts(front), last);
    }
  }

  lemma {:induction false} FirstsFixed(list: seq<Origin>)
    ensures Firsts(Firsts(list)) == Firsts(list)
    decreases |list|
  {
    if list != [] {
      var front, last := list[..|list| - 1], list[|list| - 1];
      FirstsFixed(front);
      FirstsMembers(front);
      FirstsSnoc(Firsts(front), last);
      assert Firsts(front) + [] == Firsts(front);
    }
  }

  /** The same passes in the other order: keep first, then take first occurrences. */
  ghost function Clean(list: seq<Origin>): seq<Origin>
  {
    Firsts(Keep(Pinned(list), list))
  }

  lemma PublishedIsClean(gate: Gate, list: seq<Origin>)
    ensures Published(gate, list) == Clean(Gated(gate, list))
  {
    var g := Gated(gate, list);
    FirstsMembers(g);
    assert Pinned(Firsts(g)) == Pinned(g);
    KeepFirsts(Pinned(g), g);
  }

  lemma CleanMembers(list: seq<Origin>)
    ensures forall o :: o in Clean(list) <==> o in list && !Superseded(list, o)
    ensures Pinned(Clean(list)) == Pinned(list)
  {
    KeepMembers(Pinned(list), list);
    FirstsMembers(Keep(Pinned(list), list));
  }

  lemma CleanConcat(a: seq<Origin>, b: seq<Origin>)
    ensures Clean(Clean(a) + Clean(b)) == Clean(a + b)
  {
    var places := Pinned(a + b);
    CleanMembers(a);
    CleanMembers(b);
    PinnedConcat(a, b);
    PinnedConcat(Clean(a), Clean(b));
    KeepConcat(places, Clean(a), Clean(b));
    KeepConcat(places, a, b);
    KeepFirsts(places, Keep(Pinned(a), a));
    KeepFirsts(places, Keep(Pinned(b), b));
    KeepTwice(places, Pinned(a), a);
    KeepTwice(places, Pinned(b), b);
    FirstsOfFirsts(Keep(places, a), Keep(places, b));
  }

  lemma PinnedConcat(a: seq<Origin>, b: seq<Origin>)
    ensures Pinned(a + b) == Pinned(a) + Pinned(b)
  {
  }

  lemma {:induction false} GatedFixed(gate: Gate, list: seq<Origin>)
    requires forall o :: o in list ==> gate(o) == Some(o)
    ensures Gated(gate, list) == list
    decreases |list|
  {
    if list != [] {
      var front, last := list[..|list| - 1], list[|list| - 1];
      assert last in list && list == front + [last];
      GatedFixed(gate, front);
    }
  }

  lemma {:induction false} GatedMembers(gate: Gate, list: seq<Origin>)
    requires Gates(gate)
    ensures forall o :: o in Gated(gate, list) ==> gate(o) == Some(o)
    ensures forall o :: o in list && gate(o).Some? ==> gate(o).value in Gated(gate, list)
    decreases |list|
  {
    if list != [] {
      GatedMembers(gate, list[..|list| - 1]);
      assert list == list[..|list| - 1] + [list[|list| - 1]];
    }
  }

  // ----- What a merge promises

  /** However the lists are grouped, the same origins come out in the same order, so the first one is the same. */
  lemma GroupingDoesNotMatter(gate: Gate, a: seq<Origin>, b: seq<Origin>)
    requires Gates(gate)
    ensures Published(gate, Published(gate, a) + Published(gate, b)) == Published(gate, a + b)
    ensures Published(gate, Published(gate, a) + b) == Published(gate, a + b)
    ensures Published(gate, a + Published(gate, b)) == Published(gate, a + b)
  {
    var ga, gb := Gated(gate, a), Gated(gate, b);
    PublishedGated(gate, a);
    PublishedGated(gate, b);
    CleanConcat(ga, gb);
    CleanConcat(Clean(ga), gb);
    CleanConcat(ga, Clean(gb));
    CleanIsFixed(ga);
    CleanIsFixed(gb);
    Parts(gate, Published(gate, a), Published(gate, b));
    Parts(gate, Published(gate, a), b);
    Parts(gate, a, Published(gate, b));
    Parts(gate, a, b);
  }

  lemma Parts(gate: Gate, a: seq<Origin>, b: seq<Origin>)
    ensures Published(gate, a + b) == Clean(Gated(gate, a) + Gated(gate, b))
  {
    PublishedIsClean(gate, a + b);
    GatedConcat(gate, a, b);
  }

  lemma CleanIsFixed(list: seq<Origin>)
    ensures Clean(Clean(list)) == Clean(list)
  {
    CleanConcat(list, []);
    assert Clean([]) == [] && Clean(list) + [] == Clean(list) && list + [] == list;
  }

  lemma PublishedGated(gate: Gate, list: seq<Origin>)
    requires Gates(gate)
    ensures Published(gate, list) == Clean(Gated(gate, list))
    ensures Gated(gate, Published(gate, list)) == Published(gate, list)
  {
    PublishedIsClean(gate, list);
    CleanMembers(Gated(gate, list));
    GatedMembers(gate, list);
    GatedFixed(gate, Published(gate, list));
  }

  /** Merging is associative. */
  lemma MergeAssociates(gate: Gate, a: seq<Origin>, b: seq<Origin>, c: seq<Origin>)
    requires Gates(gate)
    ensures Published(gate, Published(gate, a + b) + c) == Published(gate, a + Published(gate, b + c)) == Published(gate, a + b + c)
  {
    GroupingDoesNotMatter(gate, a + b, c);
    GroupingDoesNotMatter(gate, a, b + c);
    assert a + (b + c) == a + b + c;
  }

  /** Merging a list into itself, or a merged list again, changes nothing. */
  lemma MergeIsIdempotent(gate: Gate, a: seq<Origin>)
    requires Gates(gate)
    ensures Published(gate, Published(gate, a)) == Published(gate, a)
    ensures Published(gate, a + a) == Published(gate, a)
  {
    var g := Gated(gate, a);
    PublishedGated(gate, a);
    PublishedIsClean(gate, Published(gate, a));
    CleanIsFixed(g);
    Parts(gate, a, a);
    CleanDoubled(g);
  }

  lemma CleanDoubled(list: seq<Origin>)
    ensures Clean(list + list) == Clean(list)
  {
    PinnedConcat(list, list);
    assert Pinned(list + list) == Pinned(list);
    KeepConcat(Pinned(list), list, list);
    FirstsDoubled(Keep(Pinned(list), list));
  }

  lemma FirstsDoubled(list: seq<Origin>)
    ensures Firsts(list + list) == Firsts(list)
  {
    AllRepeats(list, list);
  }

  lemma {:induction false} AllRepeats(list: seq<Origin>, again: seq<Origin>)
    requires forall o :: o in again ==> o in list
    ensures Firsts(list + again) == Firsts(list)
    decreases |again|
  {
    if again == [] {
      assert list + again == list;
    } else {
      var front, last := again[..|again| - 1], again[|again| - 1];
      assert last in again && list + again == (list + front) + [last];
      AllRepeats(list, front);
      FirstsSnoc(list + front, last);
    }
  }

  /** Exactly the gated origins that nothing supersedes, each once; a superseded place is still there, pinned. */
  lemma NothingElseIsLost(gate: Gate, list: seq<Origin>)
    requires Gates(gate)
    ensures forall o :: o in Published(gate, list) <==> o in Gated(gate, list) && !Superseded(Gated(gate, list), o)
    ensures forall o :: o in Published(gate, list) ==> !Superseded(Published(gate, list), o)
    ensures forall o :: o in Gated(gate, list) ==> exists p :: p in Published(gate, list) && PlaceOf(p) == PlaceOf(o)
  {
    var g := Gated(gate, list);
    PublishedIsClean(gate, list);
    CleanMembers(g);
    forall o | o in g ensures exists p :: p in Clean(g) && PlaceOf(p) == PlaceOf(o) {
      if Superseded(g, o) {
        var p :| p in g && Pins(p) && PlaceOf(p) == PlaceOf(o);
        assert p in Clean(g);
      }
    }
  }

  // ----- The published list, entry by entry

  /** Some entry passes the gate as this origin. */
  ghost predicate Offered(gate: Gate, list: seq<Origin>, o: Origin)
  {
    exists i :: 0 <= i < |list| && gate(list[i]) == Some(o)
  }

  /** A repository without a revision, and the same repository and artifact offered with one. */
  ghost predicate Refined(gate: Gate, list: seq<Origin>, o: Origin)
  {
    o.revision == "" && o.repository != "" && exists revision :: revision != "" && Offered(gate, list, o.(revision := revision))
  }

  /** The first entry that passes as `x` comes before every one that passes as `y`. */
  ghost predicate ArrivesFirst(gate: Gate, list: seq<Origin>, x: Origin, y: Origin)
  {
    exists i :: 0 <= i < |list| && gate(list[i]) == Some(x) && forall j :: 0 <= j <= i ==> gate(list[j]) != Some(y)
  }

  ghost predicate InArrivalOrder(gate: Gate, list: seq<Origin>, s: seq<Origin>)
  {
    forall i, j :: 0 <= i < j < |s| ==> ArrivesFirst(gate, list, s[i], s[j])
  }

  /** Every origin offered and not refined, each once, in the order they first arrived. */
  lemma PublishedMeans(gate: Gate, list: seq<Origin>)
    requires Gates(gate)
    ensures forall o :: o in Published(gate, list) <==> Offered(gate, list, o) && !Refined(gate, list, o)
    ensures InArrivalOrder(gate, list, Published(gate, list))
  {
    var g := Gated(gate, list);
    var f := Firsts(g);
    NothingElseIsLost(gate, list);
    forall o ensures o in g <==> Offered(gate, list, o) {
      GatedIsOffered(gate, list, o);
    }
    forall o ensures Superseded(g, o) <==> Refined(gate, list, o) {
      SupersededIsRefined(gate, list, o);
    }
    FirstsArrive(gate, list);
    KeepArrives(gate, list, Pinned(f), f);
  }

  lemma {:induction false} GatedIsOffered(gate: Gate, list: seq<Origin>, o: Origin)
    ensures o in Gated(gate, list) <==> Offered(gate, list, o)
    decreases |list|
  {
    if list != [] {
      var front, last := list[..|list| - 1], list[|list| - 1];
      GatedIsOffered(gate, front, o);
      assert forall i :: 0 <= i < |front| ==> front[i] == list[i];
      assert gate(last) == Some(o) ==> gate(list[|list| - 1]) == Some(o);
    }
  }

  lemma SupersededIsRefined(gate: Gate, list: seq<Origin>, o: Origin)
    ensures Superseded(Gated(gate, list), o) <==> Refined(gate, list, o)
  {
    var g := Gated(gate, list);
    if Superseded(g, o) {
      var p :| p in g && Pins(p) && PlaceOf(p) == PlaceOf(o);
      GatedIsOffered(gate, list, p);
      assert p == o.(revision := p.revision);
    }
    if Refined(gate, list, o) {
      var revision :| revision != "" && Offered(gate, list, o.(revision := revision));
      GatedIsOffered(gate, list, o.(revision := revision));
      assert PlaceOf(o.(revision := revision)) in Pinned(g);
    }
  }

  lemma {:induction false} FirstsArrive(gate: Gate, list: seq<Origin>)
    ensures InArrivalOrder(gate, list, Firsts(Gated(gate, list)))
    decreases |list|
  {
    if list != [] {
      var front, last := list[..|list| - 1], list[|list| - 1];
      var before := Firsts(Gated(gate, front));
      FirstsArrive(gate, front);
      FirstsMembers(Gated(gate, front));
      hide ArrivesFirst;
      forall x, y | ArrivesFirst(gate, front, x, y) ensures ArrivesFirst(gate, list, x, y) {
        StillFirst(gate, list, x, y);
      }
      if gate(last).Some? {
        var o := gate(last).value;
        FirstsSnoc(Gated(gate, front), o);
        forall x | x in before && o !in Gated(gate, front) ensures ArrivesFirst(gate, list, x, o) {
          LastArrives(gate, list, x, o);
        }
      } else {
        assert Gated(gate, list) == Gated(gate, front);
      }
    }
  }

  lemma StillFirst(gate: Gate, list: seq<Origin>, x: Origin, y: Origin)
    requires list != [] && ArrivesFirst(gate, list[..|list| - 1], x, y)
    ensures ArrivesFirst(gate, list, x, y)
  {
    var front := list[..|list| - 1];
    var i :| 0 <= i < |front| && gate(front[i]) == Some(x) && forall j :: 0 <= j <= i ==> gate(front[j]) != Some(y);
    assert gate(list[i]) == Some(x) && forall j :: 0 <= j <= i ==> list[j] == front[j];
  }

  lemma LastArrives(gate: Gate, list: seq<Origin>, x: Origin, o: Origin)
    requires list != [] && x in Gated(gate, list[..|list| - 1]) && o !in Gated(gate, list[..|list| - 1])
    ensures ArrivesFirst(gate, list, x, o)
  {
    var front := list[..|list| - 1];
    GatedIsOffered(gate, front, x);
    GatedIsOffered(gate, front, o);
    var i :| 0 <= i < |front| && gate(front[i]) == Some(x);
    assert gate(list[i]) == Some(x) && forall j :: 0 <= j <= i ==> list[j] == front[j];
  }

  lemma {:induction false} KeepArrives(gate: Gate, list: seq<Origin>, places: set<Place>, s: seq<Origin>)
    requires InArrivalOrder(gate, list, s)
    ensures InArrivalOrder(gate, list, Keep(places, s))
    decreases |s|
  {
    if s != [] {
      var front, last := s[..|s| - 1], s[|s| - 1];
      KeepArrives(gate, list, places, front);
      KeepMembers(places, front);
      forall x | x in front ensures ArrivesFirst(gate, list, x, last) {
        var i :| 0 <= i < |front| && front[i] == x;
        assert s[i] == x;
      }
      assert forall i :: 0 <= i < |Keep(places, front)| ==> Keep(places, front)[i] in Keep(places, front);
    }
  }

  // ----- Keys

  /** What a merge looks duplicates up by. */
  function Key(o: Origin): string
  {
    o.artifact + "\0" + o.repository + "\0" + o.revision
  }

  function PlaceKey(o: Origin): string
  {
    o.repository + "\0" + o.artifact
  }

  function FirstNul(s: string): nat
  {
    if s == [] || s[0] == '\0' then 0 else 1 + FirstNul(s[1..])
  }

  lemma {:induction false} NulAfter(a: string, x: string)
    requires NulFree(a)
    ensures FirstNul(a + "\0" + x) == |a|
    decreases |a|
  {
    var k := a + "\0" + x;
    if a == "" {
      assert k[0] == '\0';
    } else {
      assert a[0] in a && k[0] == a[0];
      assert k[1..] == a[1..] + "\0" + x;
      NulAfter(a[1..], x);
    }
  }

  /** A NUL ends the first part of a key, so two keys agree only part by part. */
  lemma SplitAtNul(a: string, x: string, b: string, y: string)
    requires NulFree(a) && NulFree(b) && a + "\0" + x == b + "\0" + y
    ensures a == b && x == y
  {
    var k, l := a + "\0" + x, b + "\0" + y;
    NulAfter(a, x);
    NulAfter(b, y);
    assert k[..|a|] == a && l[..|b|] == b;
    assert k[|a| + 1..] == x && l[|b| + 1..] == y;
  }

  lemma KeysAreFaithful(o: Origin, p: Origin)
    requires NulFree(o.artifact) && NulFree(o.repository) && NulFree(p.artifact) && NulFree(p.repository)
    ensures Key(o) == Key(p) <==> o == p
    ensures PlaceKey(o) == PlaceKey(p) <==> PlaceOf(o) == PlaceOf(p)
  {
    if Key(o) == Key(p) {
      assert Key(o) == o.artifact + "\0" + (o.repository + "\0" + o.revision);
      assert Key(p) == p.artifact + "\0" + (p.repository + "\0" + p.revision);
      SplitAtNul(o.artifact, o.repository + "\0" + o.revision, p.artifact, p.repository + "\0" + p.revision);
      SplitAtNul(o.repository, o.revision, p.repository, p.revision);
    }
    if PlaceKey(o) == PlaceKey(p) {
      SplitAtNul(o.repository, o.artifact, p.repository, p.artifact);
    }
  }
}

/** The merge of model/origin.go. */
module Origins {
  import opened OriginTheory

  /** Every entry has passed the gates, so no part of it holds a NUL. */
  ghost predicate Storable(list: seq<Origin>)
  {
    forall o :: o in list ==> NulFree(o.artifact) && NulFree(o.repository) && NulFree(o.revision)
  }

  ghost predicate KeysOf(seen: set<string>, list: seq<Origin>)
  {
    forall k :: k in seen <==> exists o :: o in list && Key(o) == k
  }

  method AppendNormalized(origin: Origin, gate: Gate, merged0: seq<Origin>, seen0: set<string>, ghost before: seq<Origin>)
    returns (merged: seq<Origin>, seen: set<string>)
    requires Gates(gate) && merged0 == Firsts(Gated(gate, before)) && Storable(merged0) && KeysOf(seen0, merged0)
    ensures merged == Firsts(Gated(gate, before + [origin])) && Storable(merged) && KeysOf(seen, merged)
  {
    GatedConcat(gate, before, [origin]);
    assert Gated(gate, [origin]) == if gate(origin).Some? then [gate(origin).value] else [];
    merged, seen := merged0, seen0;
    var normalized := gate(origin);
    if normalized.None? {
      assert Gated(gate, before + [origin]) == Gated(gate, before);
      return;
    }
    var o := normalized.value;
    FirstsSnoc(Gated(gate, before), o);
    FirstsMembers(Gated(gate, before));
    SeenMeansMerged(seen, merged, o);
    var key := Key(o);
    if key in seen {
      assert merged + [] == merged;
      return;
    }
    seen := seen + {key};
    merged := merged + [o];
  }

  lemma SeenMeansMerged(seen: set<string>, merged: seq<Origin>, o: Origin)
    requires KeysOf(seen, merged) && Storable(merged) && NulFree(o.artifact) && NulFree(o.repository)
    ensures Key(o) in seen <==> o in merged
  {
    forall p | p in merged ensures Key(p) == Key(o) <==> p == o {
      KeysAreFaithful(o, p);
    }
  }

  /** The union of two lists by normalized value, first writer first, less what a pinned entry supersedes. */
  method MergeOrigins(existing: seq<Origin>, additions: seq<Origin>, gate: Gate) returns (out: seq<Origin>)
    requires Gates(gate)
    ensures out == Published(gate, existing + additions)
  {
    hide *;
    NothingYet(gate);
    var merged, seen := AppendAll(existing, gate, [], {}, []);
    merged, seen := AppendAll(additions, gate, merged, seen, [] + existing);
    assert [] + existing + additions == existing + additions;
    PublishedIs(gate, existing + additions);
    var buffer := new Origin[|merged|](i requires 0 <= i < |merged| => merged[i]);
    assert buffer[..] == merged;
    var kept := DropSupersededOrigins(buffer);
    out := buffer[..kept];
  }

  lemma NothingYet(gate: Gate)
    ensures [] == Firsts(Gated(gate, [])) && Storable([]) && KeysOf({}, [])
  {
  }

  lemma PublishedIs(gate: Gate, list: seq<Origin>)
    ensures Published(gate, list) == Settled(Firsts(Gated(gate, list)))
  {
  }

  method AppendAll(list: seq<Origin>, gate: Gate, merged0: seq<Origin>, seen0: set<string>, ghost before: seq<Origin>)
    returns (merged: seq<Origin>, seen: set<string>)
    requires Gates(gate) && merged0 == Firsts(Gated(gate, before)) && Storable(merged0) && KeysOf(seen0, merged0)
    ensures merged == Firsts(Gated(gate, before + list)) && Storable(merged) && KeysOf(seen, merged)
  {
    hide *;
    merged, seen := merged0, seen0;
    assert before + list[..0] == before;
    for i := 0 to |list|
      invariant merged == Firsts(Gated(gate, before + list[..i])) && Storable(merged) && KeysOf(seen, merged)
    {
      assert before + list[..i + 1] == before + list[..i] + [list[i]];
      merged, seen := AppendNormalized(list[i], gate, merged, seen, before + list[..i]);
    }
    assert list[..|list|] == list;
  }

  /** Filters in place: the entries that stay move to the front, in order. */
  method DropSupersededOrigins(origins: array<Origin>) returns (kept: nat)
    requires Storable(origins[..])
    modifies origins
    ensures kept <= origins.Length && origins[..kept] == Settled(old(origins[..]))
  {
    hide *;
    ghost var list := origins[..];
    if origins.Length < 2 {
      ShortIsSettled(list);
      assert origins[..origins.Length] == list;
      return origins.Length;
    }
    var pinned := PinnedKeys(origins[..]);
    if pinned == {} {
      NothingPinned(list);
      assert origins[..origins.Length] == list;
      return origins.Length;
    }
    kept := 0;
    ghost var out: seq<Origin> := [];
    KeepNone(Pinned(list));
    for i := 0 to origins.Length
      invariant |out| == kept <= i && out == Keep(Pinned(list), list[..i])
      invariant forall k :: 0 <= k < kept ==> origins[k] == out[k]
      invariant forall k :: i <= k < origins.Length ==> origins[k] == list[k]
    {
      var origin := origins[i];
      KeepNext(list, pinned, i, out);
      if !(Floats(origin) && PlaceKey(origin) in pinned) {
        origins[kept] := origin;
        kept := kept + 1;
        out := out + [origin];
      }
    }
    SettledIs(list);
    assert origins[..kept] == out;
  }

  lemma KeepNext(list: seq<Origin>, pinned: set<string>, i: nat, out: seq<Origin>)
    requires i < |list| && Storable(list) && PlaceKeys(list, pinned) && out == Keep(Pinned(list), list[..i])
    ensures Keep(Pinned(list), list[..i + 1]) == if Floats(list[i]) && PlaceKey(list[i]) in pinned then out else out + [list[i]]
  {
    hide Keep;
    hide Pinned;
    assert list[..i + 1] == list[..i] + [list[i]];
    KeepSnoc(Pinned(list), list[..i], list[i]);
    KeyOfPlace(list, pinned, list[i]);
    PlusNothing(out);
  }

  lemma SettledIs(list: seq<Origin>)
    ensures Settled(list) == Keep(Pinned(list), list[..|list|])
  {
    assert list[..|list|] == list;
  }

  lemma KeepNone(places: set<Place>)
    ensures Keep(places, []) == []
  {
  }

  ghost predicate PlaceKeys(list: seq<Origin>, keys: set<string>)
  {
    forall k :: k in keys <==> exists o :: o in list && Pins(o) && PlaceKey(o) == k
  }

  /** The places some entry has already pinned to a revision. */
  method PinnedKeys(list: seq<Origin>) returns (pinned: set<string>)
    ensures PlaceKeys(list, pinned)
  {
    pinned := {};
    for i := 0 to |list|
      invariant PlaceKeys(list[..i], pinned)
    {
      assert list[..i + 1] == list[..i] + [list[i]];
      if Pins(list[i]) {
        pinned := pinned + {PlaceKey(list[i])};
      }
    }
    assert list[..|list|] == list;
  }

  lemma KeyOfPlace(list: seq<Origin>, pinned: set<string>, o: Origin)
    requires Storable(list) && PlaceKeys(list, pinned) && o in list
    ensures PlaceKey(o) in pinned <==> PlaceOf(o) in Pinned(list)
  {
    forall p | p in list ensures PlaceKey(p) == PlaceKey(o) <==> PlaceOf(p) == PlaceOf(o) {
      KeysAreFaithful(o, p);
    }
  }

  lemma NothingPinned(list: seq<Origin>)
    requires PlaceKeys(list, {})
    ensures Settled(list) == list
  {
    var none: set<string> := {};
    forall o | o in list ensures !Pins(o) {
      assert PlaceKeys(list, none) && PlaceKey(o) !in none;
    }
    assert Pinned(list) == {};
    KeepAll(list);
  }

  lemma {:induction false} KeepAll(list: seq<Origin>)
    ensures Keep({}, list) == list
    decreases |list|
  {
    if list != [] {
      KeepAll(list[..|list| - 1]);
      assert list == list[..|list| - 1] + [list[|list| - 1]];
    }
  }

  lemma ShortIsSettled(list: seq<Origin>)
    requires |list| < 2
    ensures Settled(list) == list
  {
    if list != [] {
      assert list == [] + [list[0]];
      KeepSnoc(Pinned(list), [], list[0]);
      assert Floats(list[0]) ==> Pinned(list) == {};
    }
  }
}
