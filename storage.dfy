/** Post records: the excerpt, creation and update of a post, and the stored list
    with its fallback to the three sample posts. */
module Storage {
  import opened Wrappers
  import opened Types

  /** The local-storage key that holds the serialised post list. */
  const StorageKey: string := "modernblog_posts"

  /** Content longer than this is cut for the excerpt. */
  const ExcerptLength: nat := 150

  /** The excerpt of a post: the content itself when it is at most 150 characters,
      otherwise its first 150 characters followed by three dots. */
  function GenerateExcerpt(content: string): (r: string)
    ensures |r| <= ExcerptLength + 3
    ensures |content| <= ExcerptLength ==> r == content
    ensures |content| > ExcerptLength ==> |r| == ExcerptLength + 3
    ensures r[..if |content| < ExcerptLength then |content| else ExcerptLength] == content[..if |content| < ExcerptLength then |content| else ExcerptLength]
  {
    if |content| > ExcerptLength then content[..ExcerptLength] + "..." else content
  }

  /** A long content is cut exactly at 150 characters and marked with "...". */
  lemma ExcerptOfLongContent(content: string)
    requires |content| > ExcerptLength
    ensures GenerateExcerpt(content) == content[..ExcerptLength] + "..."
    ensures GenerateExcerpt(content)[ExcerptLength..] == "..."
  {
  }

  /** The excerpt equals the content exactly when nothing had to be cut, or when the
      content is 153 characters long and already ends in "..." (cutting it and adding
      the dots gives it back). */
  lemma ExcerptIsContentIff(content: string)
    ensures GenerateExcerpt(content) == content <==>
            |content| <= ExcerptLength ||
            (|content| == ExcerptLength + 3 && content[ExcerptLength..] == "...")
  {
    if |content| == ExcerptLength + 3 && content[ExcerptLength..] == "..." {
      assert content == content[..ExcerptLength] + content[ExcerptLength..];
    }
  }

  /** Every post that `createPost`/`updatePost` produced: the excerpt is the one of its
      content and it was not updated before it was created. */
  predicate Derived(p: BlogPost) {
    p.excerpt == GenerateExcerpt(p.content) && p.createdAt <= p.updatedAt
  }

  /** `createPost(newPost)`: `id` stands for `generateId()` and `now` for `new Date()`. */
  function CreatePost(newPost: NewBlogPost, id: string, now: Timestamp): (r: BlogPost)
    ensures Editable(r) == newPost
    ensures r.id == id
    ensures r.createdAt == now && r.updatedAt == now
    ensures r.excerpt == GenerateExcerpt(newPost.content)
    ensures Derived(r)
  {
    BlogPost(id, newPost.title, newPost.content, GenerateExcerpt(newPost.content),
             newPost.author, now, now, newPost.tags, newPost.published)
  }

  /** `updatePost(existingPost, updates)`: a new record; `now` stands for `new Date()`.
      The existing record is a value and is left as it was. */
  function UpdatePost(existingPost: BlogPost, updates: NewBlogPost, now: Timestamp): (r: BlogPost)
    ensures r.id == existingPost.id && r.createdAt == existingPost.createdAt
    ensures Editable(r) == updates
    ensures r.excerpt == GenerateExcerpt(updates.content)
    ensures r.updatedAt == now
    ensures existingPost.createdAt <= now ==> Derived(r)
  {
    existingPost.(title := updates.title, content := updates.content,
                  excerpt := GenerateExcerpt(updates.content), author := updates.author,
                  updatedAt := now, tags := updates.tags, published := updates.published)
  }

  /** Of two updates only the second is visible: the fields, excerpt and update time
      are the second update's, while identity and creation time survive both. */
  lemma LastUpdateWins(p: BlogPost, first: NewBlogPost, t1: Timestamp,
                                          second: NewBlogPost, t2: Timestamp)
    ensures UpdatePost(UpdatePost(p, first, t1), second, t2) == UpdatePost(p, second, t2)
  {
  }

  /** Updating a freshly created post gives the post that creating it with the new
      fields would have given, except for the update time. */
  lemma UpdateOfCreated(draft: NewBlogPost, changes: NewBlogPost, id: string, t1: Timestamp, t2: Timestamp)
    ensures UpdatePost(CreatePost(draft, id, t1), changes, t2) == CreatePost(changes, id, t1).(updatedAt := t2)
  {
  }

  // The sample posts' texts, kept as constants so that the verifier handles them as names.
  const Sample1Content: string :=
    "Modern web development has evolved significantly over the past few years. With the introduction of new frameworks, tools, and best practices, developers now have more options than ever to build fast, scalable, and maintainable applications.\n\nIn this post, we'll explore some of the key trends and technologies that are shaping the future of web development, including React, TypeScript, and modern CSS techniques.\n\nWhether you're a beginner looking to learn the basics or an experienced developer wanting to stay up-to-date with the latest trends, this guide will provide you with valuable insights and practical tips."
  const Sample1Excerpt: string :=
    "Modern web development has evolved significantly over the past few years. With the introduction of new frameworks, tools, and best practices..."
  const Sample2Content: string :=
    "CSS continues to evolve with exciting new features that make styling web applications more powerful and intuitive. From CSS Grid and Flexbox to custom properties and container queries, modern CSS provides developers with unprecedented control over layout and design.\n\nIn this comprehensive guide, we'll dive deep into the latest CSS features and explore how they can be used to create responsive, accessible, and visually stunning web interfaces."
  const Sample2Excerpt: string :=
    "CSS continues to evolve with exciting new features that make styling web applications more powerful and intuitive. From CSS Grid and Flexbox..."
  const Sample3Content: string :=
    "TypeScript has become an essential tool for building large-scale JavaScript applications. Its static type system helps catch errors early, improves code maintainability, and enhances developer productivity through better tooling and IDE support."
  const Sample3Excerpt: string :=
    "TypeScript has become an essential tool for building large-scale JavaScript applications. Its static type system helps catch errors early..."

  const Sample1Title: string := "Getting Started with Modern Web Development"
  const Sample2Title: string := "The Future of CSS: New Features and Techniques"
  const Sample3Title: string := "Building Scalable Applications with TypeScript"
  const Sample1Author: string := "Jane Smith"
  const Sample2Author: string := "Alex Johnson"
  const Sample3Author: string := "Sarah Davis"
  const Sample1Tags: seq<string> := ["web development", "react", "typescript"]
  const Sample2Tags: seq<string> := ["css", "design", "frontend"]
  const Sample3Tags: seq<string> := ["typescript", "javascript", "development"]

  /** The three sample posts that stand in for an empty or unreadable store. */
  function SamplePosts(): (r: seq<BlogPost>)
    ensures |r| == 3
  {
    [
      BlogPost("1", Sample1Title, Sample1Content, Sample1Excerpt, Sample1Author,
               1705276800000, // 2024-01-15
               1705276800000,
               Sample1Tags, true),
      BlogPost("2", Sample2Title, Sample2Content, Sample2Excerpt, Sample2Author,
               1704844800000, // 2024-01-10
               1705017600000, // 2024-01-12
               Sample2Tags, true),
      BlogPost("3", Sample3Title, Sample3Content, Sample3Excerpt, Sample3Author,
               1704412800000, // 2024-01-05
               1704412800000,
               Sample3Tags, false)
    ]
  }

  /** The sample posts carry the identifiers "1", "2", "3", two are published and one
      is a draft. */
  lemma SamplePostsShape()
    ensures Ids(SamplePosts()) == ["1", "2", "3"]
    ensures UniqueIds(SamplePosts())
    ensures SamplePosts()[0].published && SamplePosts()[1].published && !SamplePosts()[2].published
  {
  }

  /** The sample excerpts are written by hand: none of them is what `generateExcerpt`
      makes of its content, so "excerpt derived from content" is not an invariant of
      every loaded list, only of posts saved through the form. */
  lemma SampleExcerptsAreHandWritten()
    ensures forall k :: 0 <= k < 3 ==> SamplePosts()[k].excerpt != GenerateExcerpt(SamplePosts()[k].content)
  {
    var s := SamplePosts();
    forall k | 0 <= k < 3
      ensures s[k].excerpt != GenerateExcerpt(s[k].content)
    {
      assert |s[k].content| > ExcerptLength;
      assert |s[k].excerpt| < ExcerptLength + 3;
    }
  }

  /** `loadPosts()`. `saved` is `localStorage.getItem(StorageKey)` (`None` for `null`);
      `parse` stands for `JSON.parse` followed by the date revival of each element,
      `None` meaning that either of them threw. An absent or empty value, or one that
      does not parse, yields the sample posts. */
  function LoadPosts(saved: Option<string>, parse: string -> Option<seq<BlogPost>>): (r: seq<BlogPost>)
    ensures saved == None || saved == Some("") ==> r == SamplePosts()
    ensures saved.Some? && saved.value != "" && parse(saved.value).None? ==> r == SamplePosts()
    ensures saved.Some? && saved.value != "" && parse(saved.value).Some? ==> r == parse(saved.value).value
  {
    if saved.Some? && saved.value != "" then
      match parse(saved.value)
      case Some(posts) => posts
      case None => SamplePosts()
    else SamplePosts()
  }

  /** `savePosts(posts)` on a local store: the key holds `stringify(posts)`
      (`JSON.stringify`), every other key is kept. */
  function SavePosts(store: map<string, string>, posts: seq<BlogPost>,
                     stringify: seq<BlogPost> -> string): (r: map<string, string>)
    ensures r.Keys == store.Keys + {StorageKey}
    ensures r[StorageKey] == stringify(posts)
    ensures forall k :: k in store && k != StorageKey ==> r[k] == store[k]
  {
    store[StorageKey := stringify(posts)]
  }

  /** Round trip: whatever was saved is loaded back, provided the serialisation is
      non-empty and the parser reads it back (`JSON.stringify` of an array is never
      empty). */
  lemma LoadAfterSave(store: map<string, string>, posts: seq<BlogPost>,
                      stringify: seq<BlogPost> -> string, parse: string -> Option<seq<BlogPost>>)
    requires stringify(posts) != ""
    requires parse(stringify(posts)) == Some(posts)
    ensures LoadPosts(Some(SavePosts(store, posts, stringify)[StorageKey]), parse) == posts
  {
  }
}
