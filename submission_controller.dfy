/** `SubmissionController`: a user's submissions (optionally only those
    with a review), the submissions a reviewer is assigned to, and the
    assignment of a reviewer. The submission and review repositories are
    sequences of rows in storage order; the derived queries
    (`findByUserId`, `existsBySubmissionId`, `findByReviewerId`) are
    functions over them. */
module SubmissionController {
  import opened Text
  import opened Entities
  import opened TimestampOrder

  const AlreadyAssignedMessage: string := "Reviewer already assigned"

  /** `findByUserId`: the user's submissions, in storage order. */
  function ByUser(subs: seq<Submission>, userId: string): (r: seq<Submission>)
    ensures |r| <= |subs|
    ensures forall x :: x in r <==> x in subs && x.userId == userId
  {
    Filter(subs, (x: Submission) => x.userId == userId)
  }

  /** `existsBySubmissionId`: the reviews are searched from the first on,
      and the answer is whether some review names this submission id. */
  function HasReview(reviews: seq<SubmissionReview>, submissionId: string): (r: bool)
    ensures r <==> exists k :: 0 <= k < |reviews| && reviews[k].submissionId == submissionId
  {
    if reviews == [] then false
    else if reviews[0].submissionId == submissionId then true
    else
      var found := HasReview(reviews[1..], submissionId);
      assert found ==> exists k :: 0 <= k < |reviews| && reviews[k].submissionId == submissionId by {
        if found {
          var k :| 0 <= k < |reviews[1..]| && reviews[1..][k].submissionId == submissionId;
          assert reviews[k + 1] == reviews[1..][k];
        }
      }
      assert (exists k :: 0 <= k < |reviews| && reviews[k].submissionId == submissionId) ==> found by {
        if exists k :: 0 <= k < |reviews| && reviews[k].submissionId == submissionId {
          var k :| 0 <= k < |reviews| && reviews[k].submissionId == submissionId;
          assert k >= 1 && reviews[1..][k - 1] == reviews[k];
        }
      }
      found
  }

  /** What `removeIf` keeps: the submissions some review names. */
  function Reviewed(subs: seq<Submission>, reviews: seq<SubmissionReview>): (r: seq<Submission>)
    ensures |r| <= |subs|
    ensures forall x :: x in r <==> x in subs && HasReview(reviews, x.id)
  {
    Filter(subs, (x: Submission) => HasReview(reviews, x.id))
  }

  /** `findByReviewerId`: the reviews assigned to a reviewer, in storage
      order. */
  function ByReviewer(reviews: seq<SubmissionReview>, reviewerId: string): (r: seq<SubmissionReview>)
    ensures |r| <= |reviews|
    ensures forall x :: x in r <==> x in reviews && x.reviewerId == reviewerId
  {
    Filter(reviews, (x: SubmissionReview) => x.reviewerId == reviewerId)
  }

  /** `findById`: the first stored submission with this id. */
  function FindById(subs: seq<Submission>, id: Uuid): (r: Option<Submission>)
    ensures r.Some? ==> r.value in subs && r.value.id == id
    ensures r.None? <==> forall k :: 0 <= k < |subs| ==> subs[k].id != id
  {
    if subs == [] then None
    else if subs[0].id == id then Some(subs[0])
    else FindById(subs[1..], id)
  }

  /** What one review contributes to the reviewer listing: `None` when
      its submission id is not UUID text (the parse throws), otherwise the
      stored submission with that id, if any. */
  function Lookup(subs: seq<Submission>, review: SubmissionReview): (r: Option<Option<Submission>>)
    ensures r.Some? <==> ParseUuid(review.submissionId).Some?
    ensures r.Some? && r.value.Some? ==> r.value.value in subs
    ensures r.Some? ==> r.value == FindById(subs, ParseUuid(review.submissionId).value)
  {
    match ParseUuid(review.submissionId)
    case None => None
    case Some(id) => Some(FindById(subs, id))
  }

  /** The reviewer listing over the reviewer's reviews: the submission
      each review names, in review order, skipping reviews whose
      submission is not stored; `None` when a review's submission id is
      not UUID text. */
  function ReviewedSubmissions(subs: seq<Submission>, reviews: seq<SubmissionReview>): (r: Option<seq<Submission>>)
    ensures r.Some? <==> forall k :: 0 <= k < |reviews| ==> Lookup(subs, reviews[k]).Some?
    ensures r.Some? ==> |r.value| <= |reviews|
    ensures r.Some? ==> forall x :: x in r.value ==> x in subs
  {
    if reviews == [] then Some([])
    else
      var n := |reviews| - 1;
      var init := ReviewedSubmissions(subs, reviews[..n]);
      assert forall k :: 0 <= k < n ==> reviews[..n][k] == reviews[k];
      match Lookup(subs, reviews[n])
      case None => None
      case Some(found) =>
        if init.None? then None
        else match found
          case None => init
          case Some(x) => Some(init.value + [x])
  }

  /** When every review's submission id is UUID text of a stored
      submission, the listing has one submission per review. */
  lemma {:induction false} AllFoundListsEveryReview(subs: seq<Submission>, reviews: seq<SubmissionReview>)
    requires forall k :: 0 <= k < |reviews| ==> Lookup(subs, reviews[k]).Some? && Lookup(subs, reviews[k]).value.Some?
    ensures ReviewedSubmissions(subs, reviews).Some?
    ensures |ReviewedSubmissions(subs, reviews).value| == |reviews|
    decreases |reviews|
  {
    if reviews != [] {
      var n := |reviews| - 1;
      var front := reviews[..n];
      forall k | 0 <= k < n
        ensures Lookup(subs, front[k]).Some? && Lookup(subs, front[k]).value.Some?
      {
        assert front[k] == reviews[k];
      }
      AllFoundListsEveryReview(subs, front);
      var init, found := ReviewedSubmissions(subs, front), Lookup(subs, reviews[n]);
      assert found.Some? && found.value.Some?;
      ReviewedSubmissionsLast(subs, reviews);
      assert ReviewedSubmissions(subs, reviews) == Some(init.value + [found.value.value]);
    }
  }

  /** The listing of the reviews is that of all but the last one, extended
      by what the last one contributes. */
  lemma ReviewedSubmissionsLast(subs: seq<Submission>, reviews: seq<SubmissionReview>)
    requires reviews != []
    ensures var n := |reviews| - 1;
      ReviewedSubmissions(subs, reviews) == match Lookup(subs, reviews[n])
        case None => None
        case Some(found) =>
          var init := ReviewedSubmissions(subs, reviews[..n]);
          if init.None? then None
          else match found
            case None => init
            case Some(x) => Some(init.value + [x])
  {
  }

  /** One review whose submission id is not UUID text fails the listing. */
  lemma UnparsedIdFailsListing(subs: seq<Submission>, reviews: seq<SubmissionReview>, i: int)
    requires 0 <= i < |reviews| && Lookup(subs, reviews[i]).None?
    ensures ReviewedSubmissions(subs, reviews).None?
  {
  }

  /** One step of the listing loop: a review whose id is UUID text
      extends the listing by the submission it names, when that one is
      stored. */
  lemma ListingStep(subs: seq<Submission>, reviews: seq<SubmissionReview>, i: int,
                    listing: seq<Submission>, found: Option<Submission>)
    requires 0 <= i < |reviews|
    requires ReviewedSubmissions(subs, reviews[..i]) == Some(listing)
    requires Lookup(subs, reviews[i]) == Some(found)
    ensures ReviewedSubmissions(subs, reviews[..i + 1])
      == Some(if found.Some? then listing + [found.value] else listing)
  {
    var front := reviews[..i + 1];
    assert front[..i] == reviews[..i] && front[i] == reviews[i];
    ReviewedSubmissionsLast(subs, front);
  }

  /** No two reviews name the same submission. */
  predicate AtMostOneReviewEach(reviews: seq<SubmissionReview>)
  {
    forall i, j :: 0 <= i < j < |reviews| ==> reviews[i].submissionId != reviews[j].submissionId
  }

  class SubmissionStore {
    var submissions: seq<Submission>
    var reviews: seq<SubmissionReview>

    constructor (subs: seq<Submission>, revs: seq<SubmissionReview>)
      ensures submissions == subs && reviews == revs
    {
      submissions := subs;
      reviews := revs;
    }

    /** The `removeIf` pass: drop, in place of the list, every submission
        no review names. */
    method RemoveUnreviewed(subs: seq<Submission>) returns (kept: seq<Submission>)
      ensures kept == Reviewed(subs, reviews)
    {
      kept := [];
      var i := 0;
      while i < |subs|
        invariant 0 <= i <= |subs|
        invariant kept == Reviewed(subs[..i], reviews)
      {
        assert subs[..i + 1][..i] == subs[..i];
        if HasReview(reviews, subs[i].id) {
          kept := kept + [subs[i]];
        }
        i := i + 1;
      }
      assert subs[..|subs|] == subs;
    }

    /** `getSubmissionsForUser`: 204 when the user has no submission at
        all; otherwise 200 with the user's submissions (only the reviewed
        ones when `withReviewRequest` is `true`), newest first, even when
        none is left. */
    method GetSubmissionsForUser(userId: string, withReviewRequest: Option<bool>)
      returns (code: int, listing: seq<Submission>)
      ensures ByUser(submissions, userId) == [] ==> code == NO_CONTENT && listing == []
      ensures ByUser(submissions, userId) != [] ==>
        var mine := ByUser(submissions, userId);
        && code == OK
        && NewestFirst(listing)
        && multiset(listing) == multiset(if withReviewRequest == Some(true) then Reviewed(mine, reviews) else mine)
    {
      var mine := ByUser(submissions, userId);
      if |mine| == 0 {
        return NO_CONTENT, [];
      }
      var kept := mine;
      if withReviewRequest == Some(true) {
        kept := RemoveUnreviewed(mine);
      }
      var a := new Submission[|kept|](i requires 0 <= i < |kept| => kept[i]);
      assert a[..] == kept;
      SortNewestFirst(a);
      return OK, a[..];
    }

    /** The loop of `getSubmissionsForReviewer` over the reviewer's reviews:
        each review's submission is looked up in turn, and the first id that
        is not UUID text stops it. */
    method ListReviewed(mine: seq<SubmissionReview>) returns (r: Option<seq<Submission>>)
      ensures r == ReviewedSubmissions(submissions, mine)
    {
      var subs := submissions;
      var listing := [];
      var i := 0;
      while i < |mine|
        invariant 0 <= i <= |mine|
        invariant ReviewedSubmissions(subs, mine[..i]) == Some(listing)
      {
        var found := Lookup(subs, mine[i]);
        if found.None? {
          UnparsedIdFailsListing(subs, mine, i);
          return None;
        }
        ListingStep(subs, mine, i, listing, found.value);
        if found.value.Some? {
          listing := listing + [found.value.value];
        }
        i := i + 1;
      }
      assert mine[..|mine|] == mine;
      return Some(listing);
    }

    /** `getSubmissionsForReviewer`: the reviewer listing, answered with
        200; a malformed submission id in one of the reviews fails the
        request with 500. */
    method GetSubmissionsForReviewer(reviewerId: string) returns (code: int, listing: seq<Submission>)
      ensures var r := ReviewedSubmissions(submissions, ByReviewer(reviews, reviewerId));
        if r.Some? then code == OK && listing == r.value else code == INTERNAL_SERVER_ERROR && listing == []
      ensures |listing| <= |ByReviewer(reviews, reviewerId)|
    {
      var mine := ByReviewer(reviews, reviewerId);
      var r := ListReviewed(mine);
      if r.None? {
        return INTERNAL_SERVER_ERROR, [];
      }
      return OK, r.value;
    }

    /** `assignSubmissionReviewer`: 400 when a review already names the
        submission, and nothing saved; otherwise a Pending review for the
        submission and reviewer is saved and 200 answered. `newId` and
        `now` are the generated id and the clock. No two reviews ever name
        the same submission through this path. */
    method AssignSubmissionReviewer(reviewerId: string, id: string, newId: Uuid, now: nat)
      returns (code: int, message: Option<string>)
      requires forall j :: 0 <= j < |reviews| ==> reviews[j].id != newId
      modifies this
      ensures submissions == old(submissions)
      ensures HasReview(old(reviews), id) ==>
        code == BAD_REQUEST && message == Some(AlreadyAssignedMessage) && reviews == old(reviews)
      ensures !HasReview(old(reviews), id) ==>
        && code == OK && message.None?
        && reviews == old(reviews) + [SubmissionReview(newId, id, reviewerId, "Pending", NatToString(now))]
      ensures AtMostOneReviewEach(old(reviews)) ==> AtMostOneReviewEach(reviews)
      ensures HasReview(reviews, id)
    {
      if HasReview(reviews, id) {
        return BAD_REQUEST, Some(AlreadyAssignedMessage);
      }
      var review := SubmissionReview(newId, id, reviewerId, "Pending", NatToString(now));
      reviews := reviews + [review];
      assert reviews[|reviews| - 1].submissionId == id;
      return OK, None;
    }
  }
}
