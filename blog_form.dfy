/** The post editor: the form state, its submit guard and the tag list editing. */
module Form {
  import opened Wrappers
  import opened Types
  import opened Seqs
  import opened JsString

  /** The form of a new post: empty fields, no tags, a draft. */
  const BlankForm: NewBlogPost := NewBlogPost("", "", "", [], false)

  /** No tag occurs twice. */
  predicate Distinct(tags: seq<string>) {
    forall i, j :: 0 <= i < j < |tags| ==> tags[i] != tags[j]
  }

  /** The submit guard: title, content and author each hold a character that is not
      white space (`!field.trim()` is false). */
  predicate CanSubmit(data: NewBlogPost) {
    Trim(data.title) != "" && Trim(data.content) != "" && Trim(data.author) != ""
  }

  /** The submit guard lets a form through exactly when none of the three fields is
      blank. */
  lemma CanSubmitIffNotBlank(data: NewBlogPost)
    ensures CanSubmit(data) <==>
            !AllWhiteSpace(data.title) && !AllWhiteSpace(data.content) && !AllWhiteSpace(data.author)
  {
    TrimEmptyIff(data.title);
    TrimEmptyIff(data.content);
    TrimEmptyIff(data.author);
  }

  /** Whether `addTag` takes the input: its trimmed form is non-empty and not yet a tag. */
  predicate TakesTag(tags: seq<string>, tagInput: string) {
    Trim(tagInput) != "" && Trim(tagInput) !in tags
  }

  /** The tag list after `addTag`: the old tags stay in front and at most one tag is
      added, the trimmed input, which is a tag afterwards unless it is empty; a list
      without repetitions stays without them. */
  function TagsAfterAdd(tags: seq<string>, tagInput: string): (r: seq<string>)
    ensures |tags| <= |r| <= |tags| + 1 && r[..|tags|] == tags
    ensures |r| == |tags| + 1 <==> TakesTag(tags, tagInput)
    ensures forall t :: t in r <==> t in tags || (t == Trim(tagInput) && t != "")
    ensures Distinct(tags) ==> Distinct(r)
  {
    if TakesTag(tags, tagInput) then tags + [Trim(tagInput)] else tags
  }

  /** The callback of `removeTag`'s `filter`. */
  function KeepsTag(tagToRemove: string): string -> bool {
    tag => tag != tagToRemove
  }

  /** The tag list after `removeTag(tagToRemove)`. */
  function TagsAfterRemove(tags: seq<string>, tagToRemove: string): seq<string> {
    Filter(tags, KeepsTag(tagToRemove))
  }

  /** `removeTag` removes every occurrence of the tag, keeps the other tags in their
      order, and keeps a list without repetitions without them. */
  lemma RemoveTagKeepsOthers(tags: seq<string>, tagToRemove: string)
    ensures tagToRemove !in TagsAfterRemove(tags, tagToRemove)
    ensures forall t :: t in TagsAfterRemove(tags, tagToRemove) <==> t in tags && t != tagToRemove
    ensures IsSubsequence(TagsAfterRemove(tags, tagToRemove), tags)
    ensures Distinct(tags) ==> Distinct(TagsAfterRemove(tags, tagToRemove))
  {
    FilterIsSubsequence(tags, KeepsTag(tagToRemove));
    if Distinct(tags) {
      SubsequenceKeepsDistinct(TagsAfterRemove(tags, tagToRemove), tags);
    }
  }

  /** Deleting elements cannot create a repetition. */
  lemma {:induction false} SubsequenceKeepsDistinct(sub: seq<string>, s: seq<string>)
    requires IsSubsequence(sub, s) && Distinct(s)
    ensures Distinct(sub)
    decreases |s|
  {
    if sub != [] && s != [] {
      assert Distinct(s[1..]) by {
        forall i, j | 0 <= i < j < |s[1..]| ensures s[1..][i] != s[1..][j] {
          assert s[1..][i] == s[i + 1] && s[1..][j] == s[j + 1];
        }
      }
      if sub[0] == s[0] {
        SubsequenceKeepsDistinct(sub[1..], s[1..]);
        forall j | 0 < j < |sub| ensures sub[0] != sub[j] {
          assert sub[j] == sub[1..][j - 1];
          SubsequenceMembers(sub[1..], s[1..]);
          assert sub[j] in s[1..];
          var k :| 0 <= k < |s[1..]| && s[1..][k] == sub[j];
          assert s[k + 1] == sub[j];
        }
        forall i, j | 0 < i < j < |sub| ensures sub[i] != sub[j] {
          assert sub[i] == sub[1..][i - 1] && sub[j] == sub[1..][j - 1];
        }
      } else {
        SubsequenceKeepsDistinct(sub, s[1..]);
      }
    }
  }

  /** The elements of a subsequence are elements of the whole. */
  lemma {:induction false} SubsequenceMembers(sub: seq<string>, s: seq<string>)
    requires IsSubsequence(sub, s)
    ensures forall t :: t in sub ==> t in s
    decreases |s|
  {
    if sub != [] && s != [] {
      if sub[0] == s[0] {
        SubsequenceMembers(sub[1..], s[1..]);
        assert sub == [sub[0]] + sub[1..];
      } else {
        SubsequenceMembers(sub, s[1..]);
      }
    }
  }

  /** The `BlogForm` component: `formData` and `tagInput` are its hook states. */
  class BlogForm {
    var formData: NewBlogPost
    var tagInput: string

    /** Mounting the form, for a new post (`None`) or for editing `post`; the prefill
        effect has run. */
    constructor(post: Option<BlogPost>)
      ensures post.None? ==> formData == BlankForm
      ensures post.Some? ==> formData == Editable(post.value)
      ensures tagInput == ""
    {
      formData := BlankForm;
      tagInput := "";
      new;
      PrefillFrom(post);
    }

    /** The prefill effect, run when the `post` property changes: an edited post's five
        fields replace the form; without a post the form is left as it is. */
    method PrefillFrom(post: Option<BlogPost>)
      modifies this
      ensures post.Some? ==> formData == Editable(post.value)
      ensures post.None? ==> formData == old(formData)
      ensures tagInput == old(tagInput)
    {
      if post.Some? {
        formData := Editable(post.value);
      }
    }

    /** `handleSubmit`: the value handed to `onSave`, if it is called. It is called
        exactly when no required field is blank, and receives the form untrimmed. */
    method HandleSubmit() returns (saved: Option<NewBlogPost>)
      ensures saved.Some? <==> !AllWhiteSpace(formData.title) && !AllWhiteSpace(formData.content)
                                && !AllWhiteSpace(formData.author)
      ensures saved.Some? ==> saved.value == formData
    {
      CanSubmitIffNotBlank(formData);
      if Trim(formData.title) == "" || Trim(formData.content) == "" || Trim(formData.author) == "" {
        return None;
      }
      saved := Some(formData);
    }

    /** `addTag`: a taken input is appended trimmed and the input box cleared;
        otherwise nothing changes. Only the tag list and the input change. */
    method AddTag()
      modifies this
      ensures TakesTag(old(formData.tags), old(tagInput)) ==>
                formData.tags == old(formData.tags) + [Trim(old(tagInput))] && tagInput == ""
      ensures !TakesTag(old(formData.tags), old(tagInput)) ==>
                formData == old(formData) && tagInput == old(tagInput)
      ensures formData == old(formData).(tags := TagsAfterAdd(old(formData.tags), old(tagInput)))
    {
      var trimmed := Trim(tagInput);
      if trimmed != "" && trimmed !in formData.tags {
        formData := formData.(tags := formData.tags + [trimmed]);
        tagInput := "";
      }
    }

    /** `removeTag(tagToRemove)`: only the tag list changes. */
    method RemoveTag(tagToRemove: string)
      modifies this
      ensures formData == old(formData).(tags := TagsAfterRemove(old(formData.tags), tagToRemove))
      ensures tagInput == old(tagInput)
    {
      formData := formData.(tags := Filter(formData.tags, KeepsTag(tagToRemove)));
    }

    /** Typing into the title box. */
    method SetTitle(value: string)
      modifies this
      ensures formData == old(formData).(title := value) && tagInput == old(tagInput)
    {
      formData := formData.(title := value);
    }

    /** Typing into the author box. */
    method SetAuthor(value: string)
      modifies this
      ensures formData == old(formData).(author := value) && tagInput == old(tagInput)
    {
      formData := formData.(author := value);
    }

    /** Typing into the content box. */
    method SetContent(value: string)
      modifies this
      ensures formData == old(formData).(content := value) && tagInput == old(tagInput)
    {
      formData := formData.(content := value);
    }

    /** Ticking or clearing "Publish". */
    method SetPublished(checked: bool)
      modifies this
      ensures formData == old(formData).(published := checked) && tagInput == old(tagInput)
    {
      formData := formData.(published := checked);
    }

    /** Typing into the tag box. */
    method SetTagInput(value: string)
      modifies this
      ensures tagInput == value && formData == old(formData)
    {
      tagInput := value;
    }
  }
}
