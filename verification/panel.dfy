/** The admin panel as a state machine over the post collection: every user
    action is a form submission or a (possibly cancelled) deletion, and every
    action keeps ids numeric and pairwise distinct. */
module Panel {
  import opened Optional
  import opened Decimal
  import opened Posts
  import opened Store

  datatype Action =
    | SubmitPost(form: Form)
    | DeletePost(id: string, confirmed: bool)

  /** One user action applied to the collection. */
  function Step(posts: seq<Post>, a: Action): (r: seq<Post>)
    requires WellFormed(posts)
    ensures WellFormed(r)
    ensures a.SubmitPost? && a.form.id == "" ==> |r| == |posts| + 1
    ensures a.SubmitPost? && a.form.id != "" ==> |r| == |posts|
    ensures a.DeletePost? ==> |r| <= |posts|
    ensures a.DeletePost? && a.confirmed && HasId(posts, a.id) ==> |r| == |posts| - 1
  {
    match a
    case SubmitPost(f) =>
      SubmitWellFormed(posts, f);
      Submit(posts, f)
    case DeletePost(id, confirmed) =>
      DeleteWellFormed(posts, id, confirmed);
      Delete(posts, id, confirmed)
  }

  /** How many of the actions add a post. */
  function Adds(actions: seq<Action>): (n: nat)
    ensures n <= |actions|
  {
    if |actions| == 0 then 0
    else (if actions[0].SubmitPost? && actions[0].form.id == "" then 1 else 0) + Adds(actions[1..])
  }

  /** A session of actions applied in order keeps the invariant, and the
      collection grows by at most the number of additions. */
  function Run(posts: seq<Post>, actions: seq<Action>): (r: seq<Post>)
    requires WellFormed(posts)
    ensures WellFormed(r)
    ensures |r| <= |posts| + Adds(actions)
    decreases |actions|
  {
    if |actions| == 0 then posts else Run(Step(posts, actions[0]), actions[1..])
  }

  /** A fixture holding one post with id "1": after loading it and adding a
      post, the collection holds that post followed by the new one, with id "2". */
  lemma FixtureThenAdd(first: Post, f: Form)
    requires first.id == "1" && f.id == ""
    ensures var r := Submit(InitializeData(Some(Data([first], []))).posts, f);
      |r| == 2 && r[0] == first && r[1].id == "2" && r[1].title == f.title
  {
    var posts := [first];
    assert "1" == [DigitChar(1)];
    assert "1"[..0] == [];
    assert Value("1") == 1;
    assert MaxId(posts) == 1;
    assert "2" == [DigitChar(2)];
    assert NextId(posts) == Show(2) == "2";
  }
}
