/** The two post records of the blog. Dates are kept as the millisecond count a
    JavaScript `Date` holds. */
module Types {

  /** Milliseconds since the epoch. */
  type Timestamp = int

  /** A stored post. */
  datatype BlogPost = BlogPost(
    id: string,
    title: string,
    content: string,
    excerpt: string,
    author: string,
    createdAt: Timestamp,
    updatedAt: Timestamp,
    tags: seq<string>,
    published: bool)

  /** The five fields an author edits: what the post form produces. */
  datatype NewBlogPost = NewBlogPost(
    title: string,
    content: string,
    author: string,
    tags: seq<string>,
    published: bool)

  /** The editable part of a stored post. */
  function Editable(p: BlogPost): NewBlogPost {
    NewBlogPost(p.title, p.content, p.author, p.tags, p.published)
  }

  /** The identifiers of `posts`, in order. */
  function Ids(posts: seq<BlogPost>): (ids: seq<string>)
    ensures |ids| == |posts|
    ensures forall k :: 0 <= k < |posts| ==> ids[k] == posts[k].id
  {
    seq(|posts|, k requires 0 <= k < |posts| => posts[k].id)
  }

  /** No two posts of the collection share an identifier. */
  predicate UniqueIds(posts: seq<BlogPost>) {
    forall i, j :: 0 <= i < j < |posts| ==> posts[i].id != posts[j].id
  }
}
