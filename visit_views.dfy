/** Visit recording: the requester's own visits, newest first, and recording a new visit
    on the requester's behalf. */
module VisitViews {
  import opened Wrappers
  import opened Tables
  import opened Models

  /** Newest first: order_by('-timestamp'). */
  function NewestVisitFirst(): (Visit, Visit) -> bool {
    (a: Visit, b: Visit) => a.timestamp >= b.timestamp
  }

  lemma {:induction false} NewestVisitFirstIsPreorder()
    ensures TotalPreorder(NewestVisitFirst())
  {
    var le := NewestVisitFirst();
    assert forall a, b :: le(a, b) <==> a.timestamp >= b.timestamp;
  }

  predicate VisitedBy(v: Visit, user: nat) {
    v.user == user
  }

  /** RecordVisitView.get. */
  function VisitsOf(visits: seq<Visit>, requester: User): seq<Visit> {
    SortBy(Filter(visits, (v: Visit) => VisitedBy(v, requester.id)), NewestVisitFirst())
  }

  /** The listing holds exactly the requester's visits, each as often as stored, newest
      first. */
  lemma {:induction false} VisitsOfRequester(visits: seq<Visit>, requester: User)
    ensures var r := VisitsOf(visits, requester);
            && (forall v :: v in r <==> v in visits && v.user == requester.id)
            && multiset(r) <= multiset(visits)
            && Sorted(r, NewestVisitFirst())
  {
    var keep := (v: Visit) => VisitedBy(v, requester.id);
    NewestVisitFirstIsPreorder();
    SortedSelection(visits, keep, NewestVisitFirst());
    CountsGiveMembers(VisitsOf(visits, requester), visits, keep);
  }

  /** The body of a visit post after field conversion: None where a field is missing
      or does not convert. `user` is whatever the client sent under that name: the
      serializer has no such field. */
  datatype VisitPayload = VisitPayload(user: Option<int>, itemId: Option<int>, itemType: Option<string>,
                                       timestamp: Option<Time>)

  /** The serializer's checks: item_id a non-negative integer, item_type one of the
      declared choices, a timestamp. */
  predicate VisitValid(p: VisitPayload) {
    && p.itemId.Some? && p.itemId.value >= 0
    && p.itemType == Some(ProductItem)
    && p.timestamp.Some?
  }

  /** The (user, item_id, item_type) triple the table declares unique. */
  predicate SameItem(a: Visit, b: Visit) {
    a.user == b.user && a.itemId == b.itemId && a.itemType == b.itemType
  }

  /** The keys the database keeps: unique ids and unique triples. */
  predicate VisitKeys(visits: seq<Visit>) {
    && UniqueBy(visits, (v: Visit) => v.id)
    && forall i, j :: 0 <= i < j < |visits| ==> !SameItem(visits[i], visits[j])
  }

  /** 201 "visit recorded", 400 for a payload the serializer refuses, 500 for the
      IntegrityError a repeated triple raises on save. */
  datatype RecordReply = Recorded(status: string) | InvalidVisit | DuplicateVisit

  function RecordCode(r: RecordReply): nat {
    match r
    case Recorded(_) => 201
    case InvalidVisit => 400
    case DuplicateVisit => 500
  }

  /** RecordVisitView.post: validate, then save with the requester as the visitor. */
  function RecordVisit(visits: seq<Visit>, requester: User, p: VisitPayload): (RecordReply, seq<Visit>)
  {
    if !VisitValid(p) then (InvalidVisit, visits)
    else
      var v := Visit(NextId(visits, (x: Visit) => x.id), requester.id, p.itemId.value as nat,
                     p.itemType.value, p.timestamp.value);
      if exists x :: x in visits && SameItem(x, v) then (DuplicateVisit, visits)
      else (Recorded("visit recorded"), visits + [v])
  }

  /** A recorded visit is the requester's, whatever the payload says, is the one row
      added, and carries the payload's item and time; a refused or duplicate visit
      stores nothing. A valid payload is refused with 500 exactly when the requester has
      already visited that item. */
  lemma {:induction false} RecordStampsRequester(visits: seq<Visit>, requester: User, p: VisitPayload)
    ensures var (reply, after) := RecordVisit(visits, requester, p);
            && (reply == InvalidVisit <==> !VisitValid(p))
            && (!reply.Recorded? ==> after == visits)
            && (VisitValid(p) ==>
                  (reply == DuplicateVisit <==>
                     exists x :: x in visits && x.user == requester.id && x.itemId == p.itemId.value
                                 && x.itemType == ProductItem))
            && (reply.Recorded? ==>
                  && RecordCode(reply) == 201 && reply.status == "visit recorded"
                  && |after| == |visits| + 1 && after[..|visits|] == visits
                  && var v := after[|visits|];
                     && v.user == requester.id
                     && v.itemId == p.itemId.value && v.itemType == ProductItem
                     && v.timestamp == p.timestamp.value
                     && forall x :: x in visits ==> x.id != v.id)
  {
    var (reply, after) := RecordVisit(visits, requester, p);
    if reply.Recorded? {
      var v := after[|visits|];
      assert after[..|visits|] == visits;
      forall x | x in visits ensures x.id != v.id {
        var i :| 0 <= i < |visits| && visits[i] == x;
      }
    }
  }

  /** Recording keeps both keys unique. */
  lemma {:induction false} RecordKeepsKeys(visits: seq<Visit>, requester: User, p: VisitPayload)
    requires VisitKeys(visits)
    ensures VisitKeys(RecordVisit(visits, requester, p).1)
  {
    var (reply, after) := RecordVisit(visits, requester, p);
    if reply.Recorded? {
      var v := after[|visits|];
      assert after == visits + [v];
      RecordStampsRequester(visits, requester, p);
      AppendKeepsUnique(visits, (x: Visit) => x.id, v);
      forall i, j | 0 <= i < j < |after| ensures !SameItem(after[i], after[j]) {
        if j == |visits| {
          assert after[i] in visits;
        }
      }
    }
  }

  /** The stored visits. */
  class VisitTable {
    var visits: seq<Visit>

    ghost predicate Valid()
      reads this
    {
      VisitKeys(visits)
    }

    constructor (visits: seq<Visit>)
      requires VisitKeys(visits)
      ensures Valid() && this.visits == visits
    {
      this.visits := visits;
    }

    /** RecordVisitView.post: save the validated visit with the requester as visitor. */
    method Record(requester: User, p: VisitPayload) returns (reply: RecordReply)
      requires Valid()
      modifies this
      ensures Valid()
      ensures (reply, visits) == RecordVisit(old(visits), requester, p)
    {
      RecordKeepsKeys(visits, requester, p);
      if !VisitValid(p) {
        reply := InvalidVisit;
        return;
      }
      var v := Visit(NextId(visits, (x: Visit) => x.id), requester.id, p.itemId.value as nat,
                     p.itemType.value, p.timestamp.value);
      if exists x :: x in visits && SameItem(x, v) {
        reply := DuplicateVisit;
        return;
      }
      visits := visits + [v];
      reply := Recorded("visit recorded");
    }
  }
}
