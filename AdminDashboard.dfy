/** The admin console's post list: the filter tabs, the selection of posts for
    bulk moderation (toggle one, toggle all, clear) and the request a bulk
    action sends. Each handler is a function from the old console state to the
    new one. */
module AdminDashboard {
  import opened Wrappers
  import opened Domain
  import BulkModeration

  datatype FilterTab = AllTab | PendingTab | ApprovedTab | RejectedTab

  /** The state the handlers change: the active tab, the selected post ids and
      whether a bulk request is in flight. */
  datatype Console = Console(activeFilter: FilterTab, selected: seq<PostId>, bulkLoading: bool)

  // ---------------------------------------------------------------------------
  // Filtering

  /** Whether a tab lists posts of this status. */
  predicate Shows(tab: FilterTab, s: Status) {
    match tab
    case AllTab => true
    case PendingTab => s == Pending
    case ApprovedTab => s == Approved
    case RejectedTab => s == Rejected
  }

  /** `filteredPosts`: the posts the active tab lists, in their original order. */
  function FilteredPosts(posts: seq<Post>, tab: FilterTab): (r: seq<Post>)
    ensures |r| <= |posts|
    ensures forall p :: p in r <==> p in posts && Shows(tab, p.status)
  {
    if posts == [] then []
    else (if Shows(tab, posts[0].status) then [posts[0]] else []) + FilteredPosts(posts[1..], tab)
  }

  /** Filtering works piece by piece, so the listed posts keep their order. */
  lemma {:induction false} FilteredPostsAppend(a: seq<Post>, b: seq<Post>, tab: FilterTab)
    ensures FilteredPosts(a + b, tab) == FilteredPosts(a, tab) + FilteredPosts(b, tab)
  {
    if a != [] {
      assert (a + b)[1..] == a[1..] + b;
      FilteredPostsAppend(a[1..], b, tab);
    } else {
      assert a + b == b;
    }
  }

  /** The 'all' tab lists every post. */
  lemma {:induction false} AllTabListsEverything(posts: seq<Post>)
    ensures FilteredPosts(posts, AllTab) == posts
  {
    if posts != [] {
      AllTabListsEverything(posts[1..]);
      assert posts == [posts[0]] + posts[1..];
    }
  }

  // ---------------------------------------------------------------------------
  // Selection

  /** `prev.filter(id => id !== postId)`. */
  function RemoveAll(s: seq<PostId>, id: PostId): (r: seq<PostId>)
    ensures |r| <= |s|
    ensures forall x :: x in r <==> x in s && x != id
  {
    if s == [] then []
    else (if s[0] == id then [] else [s[0]]) + RemoveAll(s[1..], id)
  }

  lemma {:induction false} RemoveAbsent(s: seq<PostId>, id: PostId)
    requires id !in s
    ensures RemoveAll(s, id) == s
  {
    if s != [] {
      RemoveAbsent(s[1..], id);
      assert s == [s[0]] + s[1..];
    }
  }

  lemma {:induction false} RemoveAppended(s: seq<PostId>, id: PostId)
    requires id !in s
    ensures RemoveAll(s + [id], id) == s
  {
    if s == [] {
      assert [] + [id] == [id];
    } else {
      assert (s + [id])[1..] == s[1..] + [id];
      RemoveAppended(s[1..], id);
      assert s == [s[0]] + s[1..];
    }
  }

  lemma {:induction false} RemoveKeepsDistinct(s: seq<PostId>, id: PostId)
    requires BulkModeration.Distinct(s)
    ensures BulkModeration.Distinct(RemoveAll(s, id))
  {
    if s != [] {
      assert BulkModeration.Distinct(s[1..]) by {
        forall i, j | 0 <= i < j < |s[1..]| ensures s[1..][i] != s[1..][j] {
          assert s[1..][i] == s[i + 1] && s[1..][j] == s[j + 1];
        }
      }
      RemoveKeepsDistinct(s[1..], id);
      var rest := RemoveAll(s[1..], id);
      if s[0] != id {
        assert s[0] !in s[1..] by {
          forall k | 0 <= k < |s[1..]| ensures s[1..][k] != s[0] {
            assert s[1..][k] == s[k + 1];
          }
        }
        assert s[0] !in rest;
        var r := [s[0]] + rest;
        forall i, j | 0 <= i < j < |r| ensures r[i] != r[j] {
          if i == 0 {
            assert r[j] == rest[j - 1];
          } else {
            assert r[i] == rest[i - 1] && r[j] == rest[j - 1];
          }
        }
      }
    }
  }

  /** `togglePostSelection`: a selected id is removed everywhere it occurs, order
      kept; an unselected id is appended at the end. No other id changes. */
  function TogglePostSelection(selected: seq<PostId>, id: PostId): (r: seq<PostId>)
    ensures id in r <==> id !in selected
    ensures forall x :: x != id ==> (x in r <==> x in selected)
    ensures id !in selected ==> r == selected + [id]
    ensures id in selected ==> |r| < |selected|
  {
    if id in selected then
      var r := RemoveAll(selected, id);
      assert |r| < |selected| by {
        RemoveAllShrinks(selected, id);
      }
      r
    else selected + [id]
  }

  lemma {:induction false} RemoveAllShrinks(s: seq<PostId>, id: PostId)
    requires id in s
    ensures |RemoveAll(s, id)| < |s|
  {
    if s[0] != id {
      RemoveAllShrinks(s[1..], id);
    }
  }

  /** Toggling the same id twice gives back the same selected ids; when the id
      was not selected, the very same list. */
  lemma ToggleTwice(selected: seq<PostId>, id: PostId)
    ensures BulkModeration.Elems(TogglePostSelection(TogglePostSelection(selected, id), id)) ==
            BulkModeration.Elems(selected)
    ensures id !in selected ==> TogglePostSelection(TogglePostSelection(selected, id), id) == selected
  {
    if id !in selected {
      RemoveAppended(selected, id);
    }
  }

  /** Toggling never repeats an id in the selection. */
  lemma ToggleKeepsDistinct(selected: seq<PostId>, id: PostId)
    requires BulkModeration.Distinct(selected)
    ensures BulkModeration.Distinct(TogglePostSelection(selected, id))
  {
    if id in selected {
      RemoveKeepsDistinct(selected, id);
    } else {
      var r := selected + [id];
      forall i, j | 0 <= i < j < |r| ensures r[i] != r[j] {
        if j == |selected| {
          assert r[i] in selected;
        }
      }
    }
  }

  /** The ids of posts, in order. */
  function Ids(posts: seq<Post>): (ids: seq<PostId>)
    ensures |ids| == |posts|
    ensures forall k :: 0 <= k < |posts| ==> ids[k] == posts[k].id
  {
    seq(|posts|, k requires 0 <= k < |posts| => posts[k].id)
  }

  /** `toggleSelectAll`: clears the selection when it is as long as the listed
      posts, otherwise selects exactly the listed posts, in order. */
  function ToggleSelectAll(selected: seq<PostId>, filtered: seq<Post>): (r: seq<PostId>)
    ensures |selected| == |filtered| ==> r == []
    ensures |selected| != |filtered| ==> r == Ids(filtered)
  {
    if |selected| == |filtered| then [] else Ids(filtered)
  }

  /** The length test of `toggleSelectAll` means "everything listed is selected"
      as long as the selection has no repeats, holds only listed posts, and the
      listed posts have distinct ids. */
  lemma SelectAllTestMeansAllSelected(selected: seq<PostId>, filtered: seq<Post>)
    requires BulkModeration.Distinct(selected) && BulkModeration.Distinct(Ids(filtered))
    requires BulkModeration.Elems(selected) <= BulkModeration.Elems(Ids(filtered))
    ensures |selected| == |filtered| <==> BulkModeration.Elems(selected) == BulkModeration.Elems(Ids(filtered))
  {
    BulkModeration.ElemsCount(selected);
    BulkModeration.ElemsCount(Ids(filtered));
    BulkModeration.SubsetCount(BulkModeration.Elems(selected), BulkModeration.Elems(Ids(filtered)));
  }

  /** `clearSelection`. */
  function ClearSelection(c: Console): (r: Console)
    ensures r.selected == [] && r.activeFilter == c.activeFilter && r.bulkLoading == c.bulkLoading
  {
    c.(selected := [])
  }

  /** `setActiveFilterWithClearSelection`: a new tab always starts with nothing
      selected. */
  function SetActiveFilter(c: Console, tab: FilterTab): (r: Console)
    ensures r.activeFilter == tab && r.selected == [] && r.bulkLoading == c.bulkLoading
  {
    c.(activeFilter := tab, selected := [])
  }

  // ---------------------------------------------------------------------------
  // Bulk actions

  datatype BulkAction = ApproveAll | RejectAll | DeleteAll

  datatype BulkBody = IdsOnly(postIds: seq<PostId>) | IdsWithStatus(postIds: seq<PostId>, status: string)

  datatype BulkRequest = BulkRequest(httpMethod: string, body: BulkBody)

  /** The request `handleBulkAction` sends to the bulk endpoint: DELETE with only
      the ids for a delete, PATCH with the ids and APPROVED or REJECTED otherwise. */
  function BulkRequestFor(action: BulkAction, ids: seq<PostId>): (req: BulkRequest)
    ensures req.httpMethod == "DELETE" <==> action == DeleteAll
    ensures req.httpMethod == "DELETE" || req.httpMethod == "PATCH"
    ensures req.body.postIds == ids
    ensures action == DeleteAll ==> req.body.IdsOnly?
    ensures action == ApproveAll ==> req.body == IdsWithStatus(ids, "APPROVED")
    ensures action == RejectAll ==> req.body == IdsWithStatus(ids, "REJECTED")
  {
    if action == DeleteAll then BulkRequest("DELETE", IdsOnly(ids))
    else BulkRequest("PATCH", IdsWithStatus(ids, if action == ApproveAll then "APPROVED" else "REJECTED"))
  }

  /** The body as the bulk endpoint parses it. */
  function AsPatchBody(body: BulkBody): BulkModeration.PatchBody {
    match body
    case IdsOnly(ids) => BulkModeration.PatchBody(BulkModeration.IdArray(ids), None)
    case IdsWithStatus(ids, s) => BulkModeration.PatchBody(BulkModeration.IdArray(ids), Some(s))
  }

  /** A request the console sends for an admin with a non-empty selection passes
      every guard of the bulk endpoint that needs no store access, and a PATCH
      asks for the status the button names. */
  lemma ConsoleRequestsPassGuards(session: Option<Session>, action: BulkAction, ids: seq<PostId>)
    requires IsAdminSession(session) && |ids| > 0
    ensures var req := BulkRequestFor(action, ids);
      req.httpMethod == "PATCH" ==>
        BulkModeration.ValidatePatch(session, AsPatchBody(req.body)).Proceed? &&
        BulkModeration.ValidatePatch(session, AsPatchBody(req.body)).value.status ==
          (if action == ApproveAll then Approved else Rejected)
    ensures var req := BulkRequestFor(action, ids);
      req.httpMethod == "DELETE" ==>
        BulkModeration.ValidateDelete(session, BulkModeration.DeleteBody(BulkModeration.IdArray(req.body.postIds))).Proceed?
  {
  }

  datatype BulkResult = Succeeded | Refused(error: string) | NetworkFailure

  /** The state after the bulk request settled: a success clears the selection,
      a failure keeps it; either way the console is no longer loading. */
  function AfterBulk(c: Console, result: BulkResult): (r: Console)
    ensures !r.bulkLoading && r.activeFilter == c.activeFilter
    ensures result.Succeeded? ==> r.selected == []
    ensures !result.Succeeded? ==> r.selected == c.selected
  {
    if result.Succeeded? then ClearSelection(c).(bulkLoading := false) else c.(bulkLoading := false)
  }
}
