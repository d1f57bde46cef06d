/** The page's two module-level collections and how they are (re)loaded from
    the fixture document. Fetching and parsing the document are not modelled:
    the caller passes what the fetch produced, `None` standing for any
    transport or parse failure. */
module Store {
  import opened Optional
  import opened Posts

  datatype Download = Download(id: string, title: string, link: string, description: string)

  /** The fixture document's shape and the page's current state alike. */
  datatype Data = Data(posts: seq<Post>, downloads: seq<Download>)

  /** `initializeData` (with `loadData`): the page's collections become the
      fetched document's, whatever they held before, or two empty
      collections when the fetch failed (fail-open). The previous state is
      therefore not an input. */
  function InitializeData(fetched: Option<Data>): (r: Data)
    ensures fetched.Some? ==> r == fetched.value
    ensures fetched.None? ==> r.posts == [] && r.downloads == []
  {
    fetched.GetOr(Data([], []))
  }

  /** `showFullPost`: loads the data first when no post is held yet, then
      looks the post up. The page state is returned alongside the result. */
  function ShowFullPost(current: Data, fetched: Option<Data>, id: string): (r: (Data, Option<Post>))
    ensures |current.posts| > 0 ==> r.0 == current
    ensures |current.posts| == 0 ==> r.0 == InitializeData(fetched)
    ensures r.1.Some? <==> HasId(r.0.posts, id)
    ensures r.1.Some? ==> r.1.value.id == id && r.1.value in r.0.posts
    ensures r.1.Some? ==> exists k :: IsFirstMatch(r.0.posts, id, k) && r.0.posts[k] == r.1.value
  {
    var data := if |current.posts| == 0 then InitializeData(fetched) else current;
    (data, Find(data.posts, id))
  }
}
