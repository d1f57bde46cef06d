/** The admin panel's in-memory post collection and the four operations the
    panel performs on it: add, update, delete and lookup by id. */
module Posts {
  import opened Optional
  import opened Decimal

  /** One post. A post without a download link has `downloadLink == ""`. */
  datatype Post = Post(id: string, title: string, thumbnail: string, content: string, downloadLink: string)

  /** The fields of the post form as submitted; `id` is "" for a new post. */
  datatype Form = Form(id: string, title: string, thumbnail: string, content: string, downloadLink: string)

  /** The post built from the submitted form fields under the given id. */
  function FromForm(f: Form, id: string): Post
  {
    Post(id, f.title, f.thumbnail, f.content, f.downloadLink)
  }

  predicate HasId(posts: seq<Post>, id: string)
  {
    exists i :: 0 <= i < |posts| && posts[i].id == id
  }

  /** Every id is a numeral, so `parseInt` on it is a number, never NaN. */
  predicate NumericIds(posts: seq<Post>)
  {
    forall i :: 0 <= i < |posts| ==> IsNumeral(posts[i].id)
  }

  predicate UniqueIds(posts: seq<Post>)
  {
    forall i, j :: 0 <= i < j < |posts| ==> posts[i].id != posts[j].id
  }

  /** The collection invariant the panel keeps: numeric, pairwise distinct ids. */
  predicate WellFormed(posts: seq<Post>)
  {
    NumericIds(posts) && UniqueIds(posts)
  }

  /** `index` is the first position holding `id`. */
  predicate IsFirstMatch(posts: seq<Post>, id: string, index: int)
  {
    && 0 <= index < |posts|
    && posts[index].id == id
    && forall j :: 0 <= j < index ==> posts[j].id != id
  }

  // ---------------------------------------------------------------- lookup

  /** `findIndex(p => p.id === id)`: the first position holding `id`. */
  function FindIndex(posts: seq<Post>, id: string): (r: Option<nat>)
    ensures r.Some? ==> IsFirstMatch(posts, id, r.value)
    ensures r.None? <==> !HasId(posts, id)
  {
    if |posts| == 0 then None
    else if posts[0].id == id then Some(0)
    else
      match FindIndex(posts[1..], id)
      case None => None
      case Some(i) => Some(i + 1)
  }

  /** `find(p => p.id === id)`: the first post holding `id`, if any. */
  function Find(posts: seq<Post>, id: string): (r: Option<Post>)
    ensures r.Some? <==> HasId(posts, id)
    ensures r.Some? ==> exists k :: IsFirstMatch(posts, id, k) && posts[k] == r.value
  {
    match FindIndex(posts, id)
    case None => None
    case Some(k) => Some(posts[k])
  }

  /** With distinct ids, the lookup finds exactly the post that carries the id. */
  lemma FindUnique(posts: seq<Post>, id: string, p: Post)
    requires UniqueIds(posts)
    ensures Find(posts, id) == Some(p) <==> p in posts && p.id == id
  {
  }

  // ---------------------------------------------------------------- add

  /** The greatest id of a non-empty collection, read as numbers
      (`Math.max(...posts.map(p => parseInt(p.id)))`). */
  function MaxId(posts: seq<Post>): (m: nat)
    requires |posts| > 0 && NumericIds(posts)
    ensures forall i :: 0 <= i < |posts| ==> Value(posts[i].id) <= m
    ensures exists i :: 0 <= i < |posts| && Value(posts[i].id) == m
  {
    if |posts| == 1 then Value(posts[0].id)
    else
      var rest := MaxId(posts[1..]);
      assert forall i :: 1 <= i < |posts| ==> posts[i] == posts[1..][i - 1];
      if Value(posts[0].id) >= rest then Value(posts[0].id) else rest
  }

  /** The id a new post receives: "1" for an empty collection, otherwise one
      more than the greatest existing id. It is strictly greater than every
      existing id and so differs from all of them. */
  function NextId(posts: seq<Post>): (id: string)
    requires NumericIds(posts)
    ensures IsCanonical(id)
    ensures |posts| == 0 ==> id == "1"
    ensures |posts| > 0 ==> Value(id) == MaxId(posts) + 1
    ensures forall i :: 0 <= i < |posts| ==> Value(posts[i].id) < Value(id)
    ensures !HasId(posts, id)
  {
    var id := Show(if |posts| == 0 then 1 else MaxId(posts) + 1);
    assert |posts| == 0 ==> id == "1" by {
      if |posts| == 0 {
        assert id == [DigitChar(1)];
      }
    }
    id
  }

  /** Adding a post appends it, under a fresh id, after the unchanged
      existing posts. */
  function Add(posts: seq<Post>, f: Form): (r: seq<Post>)
    requires NumericIds(posts)
    ensures |r| == |posts| + 1
    ensures r[..|posts|] == posts
    ensures r[|posts|] == FromForm(f, r[|posts|].id)
    ensures |posts| == 0 ==> r[0].id == "1"
    ensures IsCanonical(r[|posts|].id)
    ensures |posts| > 0 ==> Value(r[|posts|].id) == MaxId(posts) + 1
    ensures !HasId(posts, r[|posts|].id)
  {
    posts + [FromForm(f, NextId(posts))]
  }

  lemma AddWellFormed(posts: seq<Post>, f: Form)
    requires WellFormed(posts)
    ensures WellFormed(Add(posts, f))
  {
  }

  // ---------------------------------------------------------------- update

  /** Updating replaces the first post holding the form's id, in place, with
      the submitted fields; a collection without that id is left unchanged. */
  function Update(posts: seq<Post>, f: Form): (r: seq<Post>)
    ensures |r| == |posts|
    ensures !HasId(posts, f.id) ==> r == posts
    ensures HasId(posts, f.id) ==>
      exists k :: IsFirstMatch(posts, f.id, k) && r == posts[k := FromForm(f, f.id)]
  {
    match FindIndex(posts, f.id)
    case None => posts
    case Some(k) => posts[k := FromForm(f, f.id)]
  }

  /** An update keeps every id where it was, so it keeps the invariant. */
  lemma UpdateKeepsIds(posts: seq<Post>, f: Form)
    ensures forall i :: 0 <= i < |posts| ==> Update(posts, f)[i].id == posts[i].id
  {
  }

  lemma UpdateWellFormed(posts: seq<Post>, f: Form)
    requires WellFormed(posts)
    ensures WellFormed(Update(posts, f))
  {
  }

  // ---------------------------------------------------------------- delete

  /** `filter(p => p.id !== id)`: drops every post holding `id`. */
  function Remove(posts: seq<Post>, id: string): (r: seq<Post>)
    ensures |r| <= |posts|
    ensures forall i :: 0 <= i < |r| ==> r[i].id != id
    ensures forall p :: p in r <==> p in posts && p.id != id
  {
    if |posts| == 0 then []
    else
      assert forall p :: p in posts <==> p == posts[0] || p in posts[1..];
      (if posts[0].id == id then [] else [posts[0]]) + Remove(posts[1..], id)
  }

  /** Removal works element by element and keeps the survivors' relative order. */
  lemma {:induction false} RemoveAppend(a: seq<Post>, b: seq<Post>, id: string)
    ensures Remove(a + b, id) == Remove(a, id) + Remove(b, id)
    decreases |a|
  {
    if |a| == 0 {
      assert a + b == b;
    } else {
      assert (a + b)[1..] == a[1..] + b;
      RemoveAppend(a[1..], b, id);
    }
  }

  /** Removing an id nobody holds changes nothing. */
  lemma {:induction false} RemoveAbsent(posts: seq<Post>, id: string)
    requires !HasId(posts, id)
    ensures Remove(posts, id) == posts
    decreases |posts|
  {
    if |posts| > 0 {
      assert forall i :: 0 <= i < |posts[1..]| ==> posts[1..][i] == posts[i + 1];
      RemoveAbsent(posts[1..], id);
      assert [posts[0]] + posts[1..] == posts;
    }
  }

  /** With distinct ids, removing a present id cuts out exactly the one post
      that holds it and keeps everything around it. */
  lemma RemoveUnique(posts: seq<Post>, id: string)
    requires UniqueIds(posts) && HasId(posts, id)
    ensures exists k :: IsFirstMatch(posts, id, k) && Remove(posts, id) == posts[..k] + posts[k + 1..]
    ensures |Remove(posts, id)| == |posts| - 1
  {
    var k := FindIndex(posts, id).value;
    RemoveAt(posts, id, k);
  }

  lemma RemoveAt(posts: seq<Post>, id: string, k: nat)
    requires UniqueIds(posts) && IsFirstMatch(posts, id, k)
    ensures Remove(posts, id) == posts[..k] + posts[k + 1..]
  {
    var before, after := posts[..k], posts[k + 1..];
    var rest := [posts[k]] + after;
    assert posts == before + rest;
    assert rest[1..] == after;
    assert forall j :: 0 <= j < |after| ==> after[j] == posts[k + 1 + j];
    assert !HasId(after, id);
    assert !HasId(before, id);
    RemoveAppend(before, rest, id);
    RemoveAbsent(before, id);
    RemoveAbsent(after, id);
    assert Remove(rest, id) == after;
  }

  /** Removal keeps a subsequence, so it keeps the invariant. */
  lemma {:induction false} RemoveWellFormed(posts: seq<Post>, id: string)
    requires WellFormed(posts)
    ensures WellFormed(Remove(posts, id))
    decreases |posts|
  {
    if |posts| > 0 {
      var tail := posts[1..];
      assert WellFormed(tail);
      RemoveWellFormed(tail, id);
      var r := Remove(posts, id);
      var rest := Remove(tail, id);
      forall p | p in rest
        ensures p.id != posts[0].id
      {
        var j :| 0 <= j < |tail| && tail[j] == p;
        assert posts[j + 1] == p;
      }
      assert posts[0] in posts;
    }
  }

  /** Filtering is a no-op exactly on the collections where the id is absent. */
  lemma RemoveNoOp(posts: seq<Post>, id: string)
    ensures Remove(posts, id) == posts <==> !HasId(posts, id)
  {
  }

  /** The delete button: a confirmed deletion is the order-preserving filter
      of the posts holding `id`; a cancelled confirmation leaves the
      collection as it was. */
  function Delete(posts: seq<Post>, id: string, confirmed: bool): (r: seq<Post>)
    ensures !confirmed ==> r == posts
    ensures confirmed ==> r == Remove(posts, id)
    ensures forall p :: p in r <==> p in posts && (!confirmed || p.id != id)
    ensures !HasId(posts, id) ==> r == posts
  {
    RemoveNoOp(posts, id);
    if confirmed then Remove(posts, id) else posts
  }

  /** A delete keeps the invariant, and a confirmed delete of a present id
      takes out exactly one post. */
  lemma DeleteWellFormed(posts: seq<Post>, id: string, confirmed: bool)
    requires WellFormed(posts)
    ensures WellFormed(Delete(posts, id, confirmed))
    ensures confirmed && HasId(posts, id) ==> |Delete(posts, id, confirmed)| == |posts| - 1
  {
    RemoveWellFormed(posts, id);
    if confirmed && HasId(posts, id) {
      RemoveUnique(posts, id);
    }
  }

  // ---------------------------------------------------------------- the form

  /** Submitting the post form: a non-empty id updates, an empty id adds. */
  function Submit(posts: seq<Post>, f: Form): (r: seq<Post>)
    requires f.id == "" ==> NumericIds(posts)
    ensures f.id == "" ==> |r| == |posts| + 1 && r[..|posts|] == posts && !HasId(posts, r[|posts|].id)
    ensures f.id != "" ==> |r| == |posts| && forall i :: 0 <= i < |r| ==> r[i].id == posts[i].id
    ensures f.id != "" ==> forall i :: 0 <= i < |r| ==> r[i] == posts[i] || IsFirstMatch(posts, f.id, i)
    ensures f.id == "" ==> r[|posts|] == FromForm(f, r[|posts|].id)
    ensures f.id == "" && |posts| == 0 ==> r[0].id == "1"
    ensures f.id == "" && |posts| > 0 ==> IsCanonical(r[|posts|].id) && Value(r[|posts|].id) == MaxId(posts) + 1
    ensures f.id != "" && !HasId(posts, f.id) ==> r == posts
    ensures f.id != "" && HasId(posts, f.id) ==>
      exists k :: IsFirstMatch(posts, f.id, k) && r == posts[k := FromForm(f, f.id)]
  {
    if f.id != "" then UpdateKeepsIds(posts, f); Update(posts, f) else Add(posts, f)
  }

  /** Saving the form, whether it adds or updates, keeps the invariant. */
  lemma SubmitWellFormed(posts: seq<Post>, f: Form)
    requires WellFormed(posts)
    ensures WellFormed(Submit(posts, f))
  {
  }

  /** `editPost`: the form filled from the first post holding `id`, if any. */
  function Edit(posts: seq<Post>, id: string): (r: Option<Form>)
    ensures r.Some? <==> HasId(posts, id)
    ensures r.Some? ==> r.value.id == id
    ensures r.Some? ==>
      exists k ::
        && IsFirstMatch(posts, id, k)
        && r.value == Form(posts[k].id, posts[k].title, posts[k].thumbnail, posts[k].content, posts[k].downloadLink)
  {
    match Find(posts, id)
    case None => None
    case Some(p) => Some(Form(p.id, p.title, p.thumbnail, p.content, p.downloadLink))
  }

  /** Editing a post and saving the form untouched leaves the collection as it was. */
  lemma EditThenSubmit(posts: seq<Post>, id: string)
    requires id != "" && HasId(posts, id)
    ensures Submit(posts, Edit(posts, id).value) == posts
  {
  }
}
