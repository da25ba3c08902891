/** The blog application's records (`Category`, `Post`, `Comment`), the two
    model forms that edit them, and the small per-record helpers. */
module BlogModels {
  import opened Common
  import opened FieldRules

  /** `max_length` of the fields the post and comment forms expose. */
  const PostTitleMax: nat := 150
  const PostShortDescriptionMax: nat := 300
  const PostSlugMax: nat := 200
  const CommentTextMax: nat := 1500

  /** Fallback picture for a post without an image. */
  const PlaceholderImage: string := "/static/img/placeholder.png"

  /** `post_amount` is denormalised: it is meant to equal the number of posts
      whose category is this one. */
  datatype Category = Category(name: string, slug: string, description: string, postAmount: int)

  datatype Post = Post(
    title: string,
    author: UserId,
    shortDescription: string,
    body: string,
    slug: string,
    category: CategoryId,
    postDate: Time,
    likes: set<UserId>,
    image: Option<ImageFile>)

  datatype Comment = Comment(post: PostId, author: UserId, text: string, pubDate: Time)

  /** A category as its first save stores it: no posts counted yet, and a
      slug derived from the name only when none was given. */
  function NewCategory(name: string, slug: string, description: string, derived: string): (c: Category)
    ensures c.postAmount == 0
    ensures c.name == name && c.description == description
    ensures slug != [] ==> c.slug == slug
    ensures slug == [] ==> c.slug == derived
  {
    Category(name, SlugOnSave(slug, derived), description, 0)
  }

  /** `Post.total_likes`: how many users like the post. */
  function TotalLikes(p: Post): nat {
    |p.likes|
  }

  /** `Post.get_thumbnail`: the placeholder path stands in for a missing image. */
  function Thumbnail(p: Post): (r: string)
    ensures p.image.None? ==> r == PlaceholderImage
    ensures p.image.Some? ==> r == p.image.value.url
    ensures r == PlaceholderImage <==> (p.image.None? || p.image.value.url == PlaceholderImage)
  {
    if p.image.None? then PlaceholderImage else p.image.value.url
  }

  // ----- PostCreateForm -----

  /** What a submitted `PostCreateForm` carries; the same form serves for
      creating and for updating a post. */
  datatype PostForm = PostForm(
    title: string,
    category: CategoryId,
    shortDescription: string,
    body: string,
    slug: string,
    image: Option<ImageFile>)

  datatype PostField =
    | TitleField | AuthorField | ShortDescriptionField | BodyField | SlugField
    | CategoryField | PostDateField | LikesField | ImageField

  /** The fields listed in `PostCreateForm.Meta.fields`. */
  const PostFormFields: set<PostField> :=
    {TitleField, CategoryField, ShortDescriptionField, BodyField, SlugField, ImageField}

  /** The fields on which two versions of a post differ. */
  function PostFieldsChanged(p: Post, q: Post): set<PostField> {
    (if p.title != q.title then {TitleField} else {})
    + (if p.author != q.author then {AuthorField} else {})
    + (if p.shortDescription != q.shortDescription then {ShortDescriptionField} else {})
    + (if p.body != q.body then {BodyField} else {})
    + (if p.slug != q.slug then {SlugField} else {})
    + (if p.category != q.category then {CategoryField} else {})
    + (if p.postDate != q.postDate then {PostDateField} else {})
    + (if p.likes != q.likes then {LikesField} else {})
    + (if p.image != q.image then {ImageField} else {})
  }

  /** The first field the form rejects, if any; `categories` are the choices
      of the category field, i.e. the stored categories. */
  function PostFormProblem(categories: set<CategoryId>, f: PostForm): (r: Option<FormError>)
    ensures r.None? <==>
      && RequiredText(f.title, PostTitleMax) && f.category in categories
      && RequiredText(f.shortDescription, PostShortDescriptionMax) && f.body != []
      && SlugInput(f.slug, PostSlugMax) && ValidImage(f.image)
    ensures r.Some? ==> r.value.FieldInvalid?
  {
    if !RequiredText(f.title, PostTitleMax) then Some(FieldInvalid("title"))
    else if f.category !in categories then Some(FieldInvalid("category"))
    else if !RequiredText(f.shortDescription, PostShortDescriptionMax) then Some(FieldInvalid("short_description"))
    else if f.body == [] then Some(FieldInvalid("body"))
    else if !SlugInput(f.slug, PostSlugMax) then Some(FieldInvalid("slug"))
    else if !ValidImage(f.image) then Some(FieldInvalid("image"))
    else None
  }

  /** A post as `PostCreateView.form_valid` stores it: the acting user is the
      author, nobody likes it yet, and it is dated now. */
  function NewPost(author: UserId, f: PostForm, now: Time, derived: string): (p: Post)
    ensures p.author == author && p.likes == {} && p.postDate == now
    ensures p.title == f.title && p.category == f.category && p.shortDescription == f.shortDescription
    ensures p.body == f.body && p.image == f.image
    ensures f.slug != [] ==> p.slug == f.slug
  {
    Post(f.title, author, f.shortDescription, f.body, SlugOnSave(f.slug, derived),
         f.category, now, {}, f.image)
  }

  /** A post after an update through `PostCreateForm` and `save`: only the
      form's fields can differ, and they take the submitted values. */
  function EditPost(p: Post, f: PostForm, derived: string): (q: Post)
    ensures PostFieldsChanged(p, q) <= PostFormFields
    ensures q.author == p.author && q.likes == p.likes && q.postDate == p.postDate
    ensures q.title == f.title && q.category == f.category && q.shortDescription == f.shortDescription
    ensures q.body == f.body && q.image == f.image
    ensures f.slug != [] ==> q.slug == f.slug
  {
    p.(title := f.title, category := f.category, shortDescription := f.shortDescription,
       body := f.body, slug := SlugOnSave(f.slug, derived), image := f.image)
  }

  // ----- CommentCreateForm -----

  datatype CommentForm = CommentForm(text: string)

  datatype CommentField = PostRefField | CommentAuthorField | TextField | PubDateField

  /** The fields listed in `CommentCreateForm.Meta.fields`. */
  const CommentFormFields: set<CommentField> := {TextField}

  function CommentFieldsChanged(c: Comment, d: Comment): set<CommentField> {
    (if c.post != d.post then {PostRefField} else {})
    + (if c.author != d.author then {CommentAuthorField} else {})
    + (if c.text != d.text then {TextField} else {})
    + (if c.pubDate != d.pubDate then {PubDateField} else {})
  }

  function CommentFormProblem(f: CommentForm): (r: Option<FormError>)
    ensures r.None? <==> 0 < |f.text| <= CommentTextMax
    ensures r.Some? ==> r.value == FieldInvalid("text")
  {
    if RequiredText(f.text, CommentTextMax) then None else Some(FieldInvalid("text"))
  }

  /** A comment as `CommentCreateView.form_valid` stores it. */
  function NewComment(post: PostId, author: UserId, f: CommentForm, now: Time): (c: Comment)
    ensures c.post == post && c.author == author && c.text == f.text && c.pubDate == now
  {
    Comment(post, author, f.text, now)
  }

  /** A comment after an update through `CommentCreateForm`: only its text changes. */
  function EditComment(c: Comment, f: CommentForm): (d: Comment)
    ensures CommentFieldsChanged(c, d) <= CommentFormFields
    ensures d.post == c.post && d.author == c.author && d.pubDate == c.pubDate
    ensures d.text == f.text
  {
    c.(text := f.text)
  }
}
