/** The public blog: published posts only, with search, tag filter and paging. */
module Visitor {
  import opened Wrappers
  import opened Types
  import opened Seqs
  import Storage
  import PostQuery

  /** Nine posts per page. */
  const ItemsPerPage: nat := 9

  predicate IsPublished(post: BlogPost) {
    post.published
  }

  /** `loadedPosts.filter(post => post.published)`. */
  function PublishedOnly(posts: seq<BlogPost>): seq<BlogPost> {
    Filter(posts, IsPublished)
  }

  /** Visitors are offered exactly the tags of published posts: a tag that only drafts
      carry never appears in the selector. */
  lemma VisitorTagsArePublished(posts: seq<BlogPost>)
    ensures forall t :: t in PostQuery.AllTags(PublishedOnly(posts)) <==>
              exists p :: p in posts && p.published && t in p.tags
    ensures forall t :: (forall p :: p in posts && t in p.tags ==> !p.published) ==>
              t !in PostQuery.AllTags(PublishedOnly(posts))
  {
    PostQuery.AllTagsSortedUnion(PublishedOnly(posts));
  }

  /** The visitor list is the admin filter applied to the published posts: a
      subsequence of all loaded posts, each one published. */
  lemma VisitorResultsArePublished(posts: seq<BlogPost>, searchQuery: string, selectedTag: string)
    ensures IsSubsequence(PostQuery.FilterPosts(PublishedOnly(posts), searchQuery, selectedTag), posts)
    ensures forall p :: p in PostQuery.FilterPosts(PublishedOnly(posts), searchQuery, selectedTag) <==>
              p in posts && p.published && PostQuery.Passes(p, searchQuery, selectedTag)
  {
    PostQuery.FilterIsSelection(PublishedOnly(posts), searchQuery, selectedTag);
    FilterIsSubsequence(posts, IsPublished);
    SubsequenceTransitive(PostQuery.FilterPosts(PublishedOnly(posts), searchQuery, selectedTag),
                          PublishedOnly(posts), posts);
  }

  /** The `VisitorLayout` component; its fields are the hook states. */
  class VisitorLayout {
    var posts: seq<BlogPost>
    var filteredPosts: seq<BlogPost>
    var searchQuery: string
    var selectedTag: string
    var viewingPost: Option<BlogPost>
    var currentPage: int

    /** Every post held is published, and the shown list is their filter. */
    predicate Valid()
      reads this
    {
      (forall p :: p in posts ==> p.published) &&
      filteredPosts == PostQuery.FilterPosts(posts, searchQuery, selectedTag)
    }

    /** Mounting: the loaded posts (`saved` and `parse` as for `loadPosts`) are cut down
        to the published ones; no filter, page 1. */
    constructor(saved: Option<string>, parse: string -> Option<seq<BlogPost>>)
      ensures Valid()
      ensures posts == PublishedOnly(Storage.LoadPosts(saved, parse)) && filteredPosts == posts
      ensures searchQuery == "" && selectedTag == "" && currentPage == 1 && viewingPost.None?
    {
      var publishedPosts := Filter(Storage.LoadPosts(saved, parse), IsPublished);
      posts := publishedPosts;
      filteredPosts := publishedPosts;
      searchQuery, selectedTag := "", "";
      viewingPost := None;
      currentPage := 1;
      PostQuery.NoCriteriaKeepsAll(publishedPosts);
    }

    /** The filter effect: the list is filtered again and page 1 shown. */
    method RunFilterEffect()
      modifies this
      requires forall p :: p in posts ==> p.published
      ensures Valid() && currentPage == 1
      ensures posts == old(posts) && searchQuery == old(searchQuery) && selectedTag == old(selectedTag)
      ensures viewingPost == old(viewingPost)
    {
      var filtered := posts;
      if searchQuery != "" {
        filtered := Filter(filtered, PostQuery.QueryTest(searchQuery));
      }
      if selectedTag != "" {
        filtered := Filter(filtered, PostQuery.TagTest(selectedTag));
      }
      filteredPosts := filtered;
      currentPage := 1;
    }

    /** Typing into the search box; the same text again changes nothing. */
    method SetSearchQuery(query: string)
      modifies this
      requires Valid()
      ensures Valid() && searchQuery == query
      ensures posts == old(posts) && selectedTag == old(selectedTag) && viewingPost == old(viewingPost)
      ensures currentPage == if query != old(searchQuery) then 1 else old(currentPage)
    {
      if query != searchQuery {
        searchQuery := query;
        RunFilterEffect();
      }
    }

    /** Choosing a tag (`""` for "All Tags"). */
    method SetSelectedTag(tag: string)
      modifies this
      requires Valid()
      ensures Valid() && selectedTag == tag
      ensures posts == old(posts) && searchQuery == old(searchQuery) && viewingPost == old(viewingPost)
      ensures currentPage == if tag != old(selectedTag) then 1 else old(currentPage)
    {
      if tag != selectedTag {
        selectedTag := tag;
        RunFilterEffect();
      }
    }

    method HandleViewPost(post: BlogPost)
      modifies this
      ensures viewingPost == Some(post)
      ensures posts == old(posts) && filteredPosts == old(filteredPosts) && currentPage == old(currentPage)
      ensures searchQuery == old(searchQuery) && selectedTag == old(selectedTag)
    {
      viewingPost := Some(post);
    }

    method HandleCloseView()
      modifies this
      ensures viewingPost.None?
      ensures posts == old(posts) && filteredPosts == old(filteredPosts) && currentPage == old(currentPage)
      ensures searchQuery == old(searchQuery) && selectedTag == old(selectedTag)
    {
      viewingPost := None;
    }

    /** `handlePageChange(page)`; the scroll to the top is not modelled. */
    method HandlePageChange(page: int)
      modifies this
      requires Valid()
      ensures Valid() && currentPage == page
      ensures posts == old(posts) && filteredPosts == old(filteredPosts) && viewingPost == old(viewingPost)
      ensures searchQuery == old(searchQuery) && selectedTag == old(selectedTag)
    {
      currentPage := page;
    }

    /** The tag selector's options, drawn from the published posts only. */
    function AllTags(): seq<string>
      reads this
    {
      PostQuery.AllTags(posts)
    }

    function TotalPages(): nat
      reads this
    {
      PostQuery.PageCount(|filteredPosts|, ItemsPerPage)
    }

    function CurrentPosts(): seq<BlogPost>
      reads this
    {
      PostQuery.PageSlice(filteredPosts, currentPage, ItemsPerPage)
    }
  }

  /** What a visitor sees: at most nine posts per page, every one published, the
      pages together holding the whole filtered list, and the tag selector offering
      only tags of published posts. */
  lemma BlogView(layout: VisitorLayout)
    requires layout.Valid()
    ensures |layout.CurrentPosts()| <= ItemsPerPage
    ensures forall p :: p in layout.CurrentPosts() ==> p.published
    ensures PostQuery.FirstPages(layout.filteredPosts, layout.TotalPages(), ItemsPerPage) == layout.filteredPosts
    ensures forall t :: t in layout.AllTags() ==> exists p :: p in layout.posts && p.published && t in p.tags
  {
    PostQuery.PageSliceBounded(layout.filteredPosts, layout.currentPage, ItemsPerPage);
    PostQuery.PagesCoverItems(layout.filteredPosts, ItemsPerPage);
    PostQuery.FilterIsSelection(layout.posts, layout.searchQuery, layout.selectedTag);
    PostQuery.AllTagsSortedUnion(layout.posts);
    PostQuery.PageSliceMembers(layout.filteredPosts, layout.currentPage, ItemsPerPage);
  }
}
