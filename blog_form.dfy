/** The blog create/edit form: the cover-image picker, the client-side
    validation, and what it sends to the create or update endpoint. */
module BlogForm {
  import opened Common
  import opened Strings
  import opened Forms
  import opened ApiResponse
  import opened BlogModel
  import BlogController
  import CommentSection

  /** A picked file: its MIME type and its size in bytes. */
  datatype ImageFile = ImageFile(mimeType: string, size: nat)

  /** The blog an edit form starts from (`initialData`). */
  datatype InitialBlog = InitialBlog(title: string, content: string, coverImage: Option<string>)

  /** The multipart body: trimmed title and content, and the file if one was picked;
      sent to the update endpoint when the form edits `blogId`, else to create. */
  datatype Submission = Submission(blogId: Option<ObjectId>, title: string, content: string, coverImage: Option<ImageFile>)

  /** The endpoint's answer: the saved blog's id, or a failure with the server's message. */
  datatype SaveReply = Saved(id: string) | Rejected(message: Option<string>)

  const AllowedTypes: seq<string> := ["image/jpeg", "image/jpg", "image/png", "image/gif", "image/webp"]
  const MaxImageBytes: nat := 5 * 1024 * 1024

  const InvalidImage := "Please select a valid image file"
  const ImageTooLarge := "Image size must be less than 5MB"
  const TitleTooShort := "Title must be at least 5 characters"
  const TitleTooLong := "Title cannot exceed 200 characters"
  const ContentTooShort := "Content must be at least 20 characters"
  const CoverRequired := "Please upload a cover image"
  const SaveFailed := "Failed to save blog"

  /** What the client accepts: a trimmed title of 5..200 characters, trimmed
      content of at least 20, and a picked cover unless an existing blog is edited. */
  predicate ClientAccepts(values: Fields, blogId: Option<ObjectId>, coverImage: Option<ImageFile>)
  {
    && TitleMinLength <= |Trim(Get(values, "title"))| <= TitleMaxLength
    && |Trim(Get(values, "content"))| >= ContentMinLength
    && (blogId.None? ==> coverImage.Some?)
  }

  /** `validate`: at most one title message, a content message, and the cover
      message for a new blog without a file. */
  method Validate(values: Fields, blogId: Option<ObjectId>, coverImage: Option<ImageFile>) returns (errors: Fields, ok: bool)
    ensures errors.Keys <= {"title", "content", "coverImage"}
    ensures "title" in errors <==> !(TitleMinLength <= |Trim(Get(values, "title"))| <= TitleMaxLength)
    ensures "title" in errors ==>
              errors["title"] == if |Trim(Get(values, "title"))| < TitleMinLength then TitleTooShort else TitleTooLong
    ensures "content" in errors <==> |Trim(Get(values, "content"))| < ContentMinLength
    ensures "content" in errors ==> errors["content"] == ContentTooShort
    ensures "coverImage" in errors <==> blogId.None? && coverImage.None?
    ensures "coverImage" in errors ==> errors["coverImage"] == CoverRequired
    ensures ok <==> errors == map[]
    ensures ok <==> ClientAccepts(values, blogId, coverImage)
  {
    errors := map[];
    var titleMessage := TitleMessage(Get(values, "title"));
    if titleMessage.Some? {
      errors := errors["title" := titleMessage.value];
    }
    var content := Get(values, "content");
    if content == "" || |Trim(content)| < ContentMinLength {
      errors := errors["content" := ContentTooShort];
    }
    if blogId.None? && coverImage.None? {
      errors := errors["coverImage" := CoverRequired];
    }
    ok := errors.Keys == {};
    AcceptsIffNoMessage(values, blogId, coverImage, errors);
  }

  /** The three per-field rules together are exactly what the client accepts. */
  lemma AcceptsIffNoMessage(values: Fields, blogId: Option<ObjectId>, coverImage: Option<ImageFile>, errors: Fields)
    requires errors.Keys <= {"title", "content", "coverImage"}
    requires "title" in errors <==> !(TitleMinLength <= |Trim(Get(values, "title"))| <= TitleMaxLength)
    requires "content" in errors <==> |Trim(Get(values, "content"))| < ContentMinLength
    requires "coverImage" in errors <==> blogId.None? && coverImage.None?
    ensures errors == map[] <==> ClientAccepts(values, blogId, coverImage)
  {
    if errors != map[] {
      var k :| k in errors.Keys;
    }
  }

  /** The title's message: too short when empty or under 5 characters once
      trimmed, too long over 200. */
  function TitleMessage(title: string): (m: Option<string>)
    ensures m.Some? <==> !(TitleMinLength <= |Trim(title)| <= TitleMaxLength)
    ensures m.Some? ==> m.value == if |Trim(title)| < TitleMinLength then TitleTooShort else TitleTooLong
  {
    if title == "" || |Trim(title)| < TitleMinLength then Some(TitleTooShort)
    else if |Trim(title)| > TitleMaxLength then Some(TitleTooLong)
    else None
  }

  /** A form the client accepts for a new blog is also accepted by the server:
      once the cover is uploaded, the create endpoint answers 201 and stores the
      title and content exactly as the form sent them. */
  lemma ClientAcceptedCreateIsStored(values: Fields, file: ImageFile, caller: ObjectId, path: string,
                                     url: string, newId: ObjectId, now: int)
    requires ClientAccepts(values, None, Some(file)) && url != ""
    ensures var title, content := Trim(Get(values, "title")), Trim(Get(values, "content"));
            var s := BlogController.Create(caller, Some(title), Some(content), Some(path), Some(url), newId, now);
            && s.reply.Respond? && s.reply.envelope.statusCode == 201
            && s.saved.Some? && s.saved.value.title == title && s.saved.value.content == content
  {
    var title, content := Trim(Get(values, "title")), Trim(Get(values, "content"));
    TrimIdempotent(Get(values, "title"));
    BlogController.CreateSpec(caller, Some(title), Some(content), Some(path), Some(url), newId, now);
    assert BlogSchemaErrors(BlogFields(Some(title), Some(content), Some(url), Some(caller))) == {};
  }

  /** A form the client accepts for an existing blog saves without a
      validation error when no new cover is sent. */
  lemma ClientAcceptedEditIsStored(values: Fields, blogId: ObjectId, b: Blog, now: int)
    requires ClientAccepts(values, Some(blogId), None) && StoredBlogValid(b)
    ensures var title, content := Trim(Get(values, "title")), Trim(Get(values, "content"));
            var r := BlogController.SaveEdit(b, Some(title), Some(content), b.coverImage, now);
            r.Ok? && r.value.title == title && r.value.content == content
  {
    var title, content := Trim(Get(values, "title")), Trim(Get(values, "content"));
    TrimIdempotent(Get(values, "title"));
    BlogController.SaveEditSpec(b, Some(title), Some(content), b.coverImage, now);
  }

  class Editor {
    const form: FormState
    const blogId: Option<ObjectId>
    const initialCover: Option<string>
    var coverImage: Option<ImageFile>
    var previewUrl: string
    var sent: seq<Submission>
    var navigations: seq<string>

    /** The picked cover, if any, passed the type and size checks. */
    predicate CoverChecked()
      reads this
    {
      coverImage.Some? ==> coverImage.value.mimeType in AllowedTypes && coverImage.value.size <= MaxImageBytes
    }

    /** Mounting the form, followed by its effect that copies `initialData` in. */
    constructor (blogId: Option<ObjectId>, initialData: Option<InitialBlog>)
      ensures this.blogId == blogId && coverImage == None && sent == [] && navigations == []
      ensures initialData.None? ==>
                form.values == map["title" := "", "content" := ""] && previewUrl == "" && initialCover == None
      ensures initialData.Some? ==>
                && form.values == map["title" := initialData.value.title, "content" := initialData.value.content]
                && previewUrl == OrElse(initialData.value.coverImage, "")
                && initialCover == initialData.value.coverImage
      ensures form.errors == map[] && form.apiError == ""
      ensures fresh(form) && CoverChecked()
    {
      this.blogId := blogId;
      if initialData.None? {
        form := new FormState(map["title" := "", "content" := ""]);
        initialCover := None;
        previewUrl := "";
      } else {
        var d := initialData.value;
        form := new FormState(map["title" := d.title, "content" := d.content]);
        initialCover := d.coverImage;
        previewUrl := OrElse(d.coverImage, "");
      }
      coverImage := None;
      sent := [];
      navigations := [];
    }

    /** `handleImageChange`: a file of another type or over 5 MiB only sets
        the cover message; an accepted one becomes the cover and the preview,
        and its message is blanked. */
    method HandleImageChange(file: Option<ImageFile>, objectUrl: string)
      modifies this, form
      ensures form.values == old(form.values) && form.apiError == old(form.apiError)
      ensures sent == old(sent) && navigations == old(navigations)
      ensures file.None? ==>
                form.errors == old(form.errors) && coverImage == old(coverImage) && previewUrl == old(previewUrl)
      ensures file.Some? && file.value.mimeType !in AllowedTypes ==>
                form.errors == old(form.errors)["coverImage" := InvalidImage]
                && coverImage == old(coverImage) && previewUrl == old(previewUrl)
      ensures file.Some? && file.value.mimeType in AllowedTypes && file.value.size > MaxImageBytes ==>
                form.errors == old(form.errors)["coverImage" := ImageTooLarge]
                && coverImage == old(coverImage) && previewUrl == old(previewUrl)
      ensures file.Some? && file.value.mimeType in AllowedTypes && file.value.size <= MaxImageBytes ==>
                form.errors == old(form.errors)["coverImage" := ""]
                && coverImage == file && previewUrl == objectUrl
      ensures old(CoverChecked()) ==> CoverChecked()
    {
      if file.None? {
        return;
      }
      var f := file.value;
      if f.mimeType !in AllowedTypes {
        form.SetErrors(form.errors["coverImage" := InvalidImage]);
        return;
      }
      if f.size > MaxImageBytes {
        form.SetErrors(form.errors["coverImage" := ImageTooLarge]);
        return;
      }
      coverImage := file;
      previewUrl := objectUrl;
      form.SetErrors(form.errors["coverImage" := ""]);
    }

    /** `removeImage`: no file, and the preview falls back to the blog's stored cover. */
    method RemoveImage()
      modifies this
      ensures coverImage == None && previewUrl == OrElse(initialCover, "") && CoverChecked()
      ensures sent == old(sent) && navigations == old(navigations)
    {
      coverImage := None;
      previewUrl := OrElse(initialCover, "");
    }

    /** `handleSubmit`: an invalid form sends nothing; a valid one sends the
        trimmed fields to the endpoint for its mode and then opens the saved
        blog, or shows the server's message. */
    method HandleSubmit(reply: SaveReply)
      modifies this, form
      ensures form.values == old(form.values)
      ensures coverImage == old(coverImage) && previewUrl == old(previewUrl)
      ensures !ClientAccepts(form.values, blogId, coverImage) ==>
                form.errors != map[] && sent == old(sent) && navigations == old(navigations)
                && form.apiError == old(form.apiError)
      ensures ClientAccepts(form.values, blogId, coverImage) ==>
                && form.errors == map[]
                && sent == old(sent) + [Submission(blogId, Trim(Get(form.values, "title")),
                                                   Trim(Get(form.values, "content")), coverImage)]
                && (reply.Saved? ==> navigations == old(navigations) + [CommentSection.BlogPath(reply.id)]
                                     && form.apiError == old(form.apiError))
                && (reply.Rejected? ==> navigations == old(navigations)
                                        && form.apiError == OrElse(reply.message, SaveFailed))
    {
      var errors, ok := Validate(form.values, blogId, coverImage);
      form.SetErrors(errors);
      if !ok {
        return;
      }
      sent := sent + [Submission(blogId, Trim(Get(form.values, "title")), Trim(Get(form.values, "content")), coverImage)];
      match reply
      case Saved(id) =>
        navigations := navigations + [CommentSection.BlogPath(id)];
      case Rejected(message) =>
        form.SetApiError(OrElse(message, SaveFailed));
    }
  }
}
