/** The admin dashboard: every post, drafts included, with search, tag filter, paging
    and the create, edit and delete actions. */
module Admin {
  import opened Wrappers
  import opened Types
  import opened Seqs
  import Storage
  import PostQuery
  import Auth

  /** Six posts per page. */
  const ItemsPerPage: nat := 6

  /** `posts.map(p => p.id === id ? updated : p)`. */
  function ReplaceById(posts: seq<BlogPost>, id: string, updated: BlogPost): (r: seq<BlogPost>)
    ensures |r| == |posts|
    ensures forall k :: 0 <= k < |posts| && posts[k].id == id ==> r[k] == updated
    ensures forall k :: 0 <= k < |posts| && posts[k].id != id ==> r[k] == posts[k]
  {
    seq(|posts|, k requires 0 <= k < |posts| => if posts[k].id == id then updated else posts[k])
  }

  /** Replacing by a post of the same id changes no identifier, so a collection with
      unique ids keeps them unique, and every post with another id keeps its place. */
  lemma ReplaceKeepsIds(posts: seq<BlogPost>, updated: BlogPost)
    ensures Ids(ReplaceById(posts, updated.id, updated)) == Ids(posts)
    ensures UniqueIds(posts) ==> UniqueIds(ReplaceById(posts, updated.id, updated))
  {
    var r := ReplaceById(posts, updated.id, updated);
    assert forall k :: 0 <= k < |posts| ==> r[k].id == posts[k].id;
  }

  /** Prepending a post whose id is new keeps the ids unique. */
  lemma PrependKeepsIdsUnique(post: BlogPost, posts: seq<BlogPost>)
    requires UniqueIds(posts) && post.id !in Ids(posts)
    ensures UniqueIds([post] + posts)
    ensures Ids([post] + posts) == [post.id] + Ids(posts)
  {
    var r := [post] + posts;
    forall i, j | 0 <= i < j < |r| ensures r[i].id != r[j].id {
      assert r[j] == posts[j - 1];
      if i == 0 {
        assert Ids(posts)[j - 1] == posts[j - 1].id;
      } else {
        assert r[i] == posts[i - 1];
      }
    }
  }

  /** The posts after `handleSavePost`: the edited post replaced by its update, or a new
      post first. */
  function SavedPosts(posts: seq<BlogPost>, editingPost: Option<BlogPost>, postData: NewBlogPost,
                      freshId: string, now: Types.Timestamp): seq<BlogPost>
  {
    if editingPost.Some? then
      ReplaceById(posts, editingPost.value.id, Storage.UpdatePost(editingPost.value, postData, now))
    else [Storage.CreatePost(postData, freshId, now)] + posts
  }

  /** Saving keeps the ids unique when the new id is fresh: an edit changes no id and
      keeps the length, a creation adds exactly one post in front. */
  lemma SaveKeepsIdsUnique(posts: seq<BlogPost>, editingPost: Option<BlogPost>, postData: NewBlogPost,
                           freshId: string, now: Types.Timestamp)
    requires UniqueIds(posts)
    requires editingPost.None? ==> freshId !in Ids(posts)
    ensures UniqueIds(SavedPosts(posts, editingPost, postData, freshId, now))
    ensures editingPost.Some? ==> Ids(SavedPosts(posts, editingPost, postData, freshId, now)) == Ids(posts)
    ensures editingPost.None? ==>
              SavedPosts(posts, editingPost, postData, freshId, now)[1..] == posts &&
              SavedPosts(posts, editingPost, postData, freshId, now)[0].id == freshId
  {
    if editingPost.Some? {
      ReplaceKeepsIds(posts, Storage.UpdatePost(editingPost.value, postData, now));
    } else {
      PrependKeepsIdsUnique(Storage.CreatePost(postData, freshId, now), posts);
    }
  }

  /** The `AdminLayout` component; its fields are the hook states. `persisted` is the
      list last handed to `savePosts`, `None` before the first save. */
  class AdminLayout {
    var posts: seq<BlogPost>
    var filteredPosts: seq<BlogPost>
    var searchQuery: string
    var selectedTag: string
    var showForm: bool
    var editingPost: Option<BlogPost>
    var viewingPost: Option<BlogPost>
    var currentPage: int
    var persisted: Option<seq<BlogPost>>

    /** After every effect has run, the shown list is the filter of the posts. */
    predicate Valid()
      reads this
    {
      filteredPosts == PostQuery.FilterPosts(posts, searchQuery, selectedTag)
    }

    /** Mounting: the posts are loaded (`saved` and `parse` as for `loadPosts`), no
        filter is set, page 1 is shown and no dialog is open. */
    constructor(saved: Option<string>, parse: string -> Option<seq<BlogPost>>)
      ensures Valid()
      ensures posts == Storage.LoadPosts(saved, parse) && filteredPosts == posts
      ensures searchQuery == "" && selectedTag == "" && currentPage == 1
      ensures !showForm && editingPost.None? && viewingPost.None? && persisted.None?
    {
      var loadedPosts := Storage.LoadPosts(saved, parse);
      posts := loadedPosts;
      filteredPosts := loadedPosts;
      searchQuery, selectedTag := "", "";
      showForm, editingPost, viewingPost := false, None, None;
      currentPage := 1;
      persisted := None;
      PostQuery.NoCriteriaKeepsAll(loadedPosts);
    }

    /** The filter effect, run after `posts`, `searchQuery` or `selectedTag` changed:
        the list is filtered again and page 1 shown. */
    method RunFilterEffect()
      modifies this
      ensures Valid() && currentPage == 1
      ensures posts == old(posts) && searchQuery == old(searchQuery) && selectedTag == old(selectedTag)
      ensures showForm == old(showForm) && editingPost == old(editingPost)
      ensures viewingPost == old(viewingPost) && persisted == old(persisted)
    {
      var filtered := posts;
      if searchQuery != "" {
        filtered := Filter(filtered, PostQuery.QueryTest(searchQuery));
      }
      if selectedTag != "" {
        filtered := Filter(filtered, PostQuery.TagTest(selectedTag));
      }
      filteredPosts := filtered;
      currentPage := 1;
    }

    /** Typing into the search box. Setting the same text again changes no state, so
        the effect does not run and the page stays. */
    method SetSearchQuery(query: string)
      modifies this
      requires Valid()
      ensures Valid() && searchQuery == query
      ensures posts == old(posts) && selectedTag == old(selectedTag)
      ensures currentPage == if query != old(searchQuery) then 1 else old(currentPage)
      ensures showForm == old(showForm) && editingPost == old(editingPost)
      ensures viewingPost == old(viewingPost) && persisted == old(persisted)
    {
      if query != searchQuery {
        searchQuery := query;
        RunFilterEffect();
      }
    }

    /** Choosing a tag in the selector (`""` for "All Tags"). */
    method SetSelectedTag(tag: string)
      modifies this
      requires Valid()
      ensures Valid() && selectedTag == tag
      ensures posts == old(posts) && searchQuery == old(searchQuery)
      ensures currentPage == if tag != old(selectedTag) then 1 else old(currentPage)
      ensures showForm == old(showForm) && editingPost == old(editingPost)
      ensures viewingPost == old(viewingPost) && persisted == old(persisted)
    {
      if tag != selectedTag {
        selectedTag := tag;
        RunFilterEffect();
      }
    }

    /** "New Post": the form opens empty. */
    method HandleCreatePost()
      modifies this
      ensures showForm && editingPost.None?
      ensures posts == old(posts) && filteredPosts == old(filteredPosts) && viewingPost == old(viewingPost)
      ensures searchQuery == old(searchQuery) && selectedTag == old(selectedTag)
      ensures currentPage == old(currentPage) && persisted == old(persisted)
    {
      editingPost := None;
      showForm := true;
    }

    /** "Edit": the form opens on `post` and the reading view closes. */
    method HandleEditPost(post: BlogPost)
      modifies this
      ensures showForm && editingPost == Some(post) && viewingPost.None?
      ensures posts == old(posts) && filteredPosts == old(filteredPosts)
      ensures searchQuery == old(searchQuery) && selectedTag == old(selectedTag)
      ensures currentPage == old(currentPage) && persisted == old(persisted)
    {
      editingPost := Some(post);
      showForm := true;
      viewingPost := None;
    }

    /** `handleSavePost(postData)`, with the id `createPost` would draw and the current
        time passed in. An edit replaces every post with the edited id by its update, a
        new post goes first; the new list is saved, the form closes, the filter effect
        runs. */
    method HandleSavePost(postData: NewBlogPost, freshId: string, now: Types.Timestamp)
      modifies this
      ensures posts == SavedPosts(old(posts), old(editingPost), postData, freshId, now)
      ensures persisted == Some(posts)
      ensures !showForm && editingPost.None?
      ensures Valid() && currentPage == 1
      ensures searchQuery == old(searchQuery) && selectedTag == old(selectedTag)
      ensures viewingPost == old(viewingPost)
    {
      var updatedPosts;
      if editingPost.Some? {
        var updated := Storage.UpdatePost(editingPost.value, postData, now);
        updatedPosts := ReplaceById(posts, editingPost.value.id, updated);
      } else {
        var newPost := Storage.CreatePost(postData, freshId, now);
        updatedPosts := [newPost] + posts;
      }
      posts := updatedPosts;
      persisted := Some(updatedPosts);
      showForm := false;
      editingPost := None;
      RunFilterEffect();
    }

    /** "Cancel": the form closes without saving. */
    method HandleCancelForm()
      modifies this
      ensures !showForm && editingPost.None?
      ensures posts == old(posts) && filteredPosts == old(filteredPosts) && viewingPost == old(viewingPost)
      ensures searchQuery == old(searchQuery) && selectedTag == old(selectedTag)
      ensures currentPage == old(currentPage) && persisted == old(persisted)
    {
      showForm := false;
      editingPost := None;
    }

    method HandleViewPost(post: BlogPost)
      modifies this
      ensures viewingPost == Some(post)
      ensures posts == old(posts) && filteredPosts == old(filteredPosts)
      ensures showForm == old(showForm) && editingPost == old(editingPost)
      ensures currentPage == old(currentPage) && persisted == old(persisted)
      ensures searchQuery == old(searchQuery) && selectedTag == old(selectedTag)
    {
      viewingPost := Some(post);
    }

    method HandleCloseView()
      modifies this
      ensures viewingPost.None?
      ensures posts == old(posts) && filteredPosts == old(filteredPosts)
      ensures showForm == old(showForm) && editingPost == old(editingPost)
      ensures currentPage == old(currentPage) && persisted == old(persisted)
      ensures searchQuery == old(searchQuery) && selectedTag == old(selectedTag)
    {
      viewingPost := None;
    }

    /** `handleDeletePost(post)`. `remaining` is what `deletePost(post.id, posts)`
        returned; that function is not part of this model. The list is replaced and
        saved, the reading view closes and the filter effect runs. */
    method HandleDeletePost(post: BlogPost, remaining: seq<BlogPost>)
      modifies this
      ensures posts == remaining && persisted == Some(remaining)
      ensures viewingPost.None?
      ensures Valid() && currentPage == 1
      ensures showForm == old(showForm) && editingPost == old(editingPost)
      ensures searchQuery == old(searchQuery) && selectedTag == old(selectedTag)
    {
      posts := remaining;
      persisted := Some(remaining);
      viewingPost := None;
      RunFilterEffect();
    }

    /** `handlePageChange(page)`; the scroll to the top is not modelled. */
    method HandlePageChange(page: int)
      modifies this
      requires Valid()
      ensures Valid() && currentPage == page
      ensures posts == old(posts) && filteredPosts == old(filteredPosts)
      ensures showForm == old(showForm) && editingPost == old(editingPost)
      ensures viewingPost == old(viewingPost) && persisted == old(persisted)
      ensures searchQuery == old(searchQuery) && selectedTag == old(selectedTag)
    {
      currentPage := page;
    }

    /** "Logout" delegates to the authentication context. */
    method HandleLogout(auth: Auth.AuthProvider)
      modifies auth, auth.store
      ensures !auth.isAuthenticated
      ensures auth.store.items == Auth.ClearSession(old(auth.store.items))
    {
      auth.Logout();
    }

    /** The tag selector's options: the tags of all posts, drafts and filtered-out
        posts included. */
    function AllTags(): seq<string>
      reads this
    {
      PostQuery.AllTags(posts)
    }

    /** `totalPages = Math.ceil(filteredPosts.length / itemsPerPage)`. */
    function TotalPages(): nat
      reads this
    {
      PostQuery.PageCount(|filteredPosts|, ItemsPerPage)
    }

    /** `currentPosts`: the posts on the current page. */
    function CurrentPosts(): seq<BlogPost>
      reads this
    {
      PostQuery.PageSlice(filteredPosts, currentPage, ItemsPerPage)
    }
  }

  /** What the dashboard shows: at most six posts per page, drawn from the filtered
      list in order; the pages together hold the whole filtered list; the tag
      selector offers, sorted and once each, exactly the tags of all posts. */
  lemma DashboardView(layout: AdminLayout)
    requires layout.Valid()
    ensures |layout.CurrentPosts()| <= ItemsPerPage
    ensures PostQuery.FirstPages(layout.filteredPosts, layout.TotalPages(), ItemsPerPage) == layout.filteredPosts
    ensures IsSubsequence(layout.filteredPosts, layout.posts)
    ensures PostQuery.StrictlySorted(layout.AllTags())
    ensures forall t :: t in layout.AllTags() <==> exists p :: p in layout.posts && t in p.tags
  {
    PostQuery.PageSliceBounded(layout.filteredPosts, layout.currentPage, ItemsPerPage);
    PostQuery.PagesCoverItems(layout.filteredPosts, ItemsPerPage);
    PostQuery.FilterIsSelection(layout.posts, layout.searchQuery, layout.selectedTag);
    PostQuery.AllTagsSortedUnion(layout.posts);
  }
}
