/**
 * The download helpers of the reader page (js/reader-script.js,
 * `downloadBook` and `downloadSample`): the file name offered to the
 * browser and the Cloudinary attachment URL.
 */
module Download {
  import opened Wrappers
  import opened Text

  /** The `bookFile` reference of a stored book. */
  datatype BookFile = BookFile(url: string, format: Option<string>)

  /** The fields of a stored book that the download helpers read.  The
      price only appears in the confirmation text, which is not modelled. */
  datatype StoredBook = StoredBook(title: string, bookFile: BookFile)

  /** The reply of `GET /api/books/:id`: the fetch threw, the reply said
      `success: false`, or the book. */
  datatype BookReply = FetchFailed(message: string) | NotFound | Found(book: StoredBook)

  /** The anchor element that is clicked: its `href` and `download`. */
  datatype Link = Link(href: string, download: string)

  /** How a download attempt ends: a caught error with its message (the
      script shows it in an alert behind its own prefix), a declined
      confirmation, or a started download. */
  datatype Attempt = Failed(message: string) | Declined | Started(link: Link)

  const CLOUDINARY: string := "cloudinary.com"
  const UPLOAD: string := "/upload/"
  const ATTACHMENT_FLAG: string := "fl_attachment/"
  const SAMPLE_FLAG: string := "fl_attachment:Sample_/"

  /** `title.replace(/[^a-z0-9]/gi, '_')`. */
  function SanitizeTitle(title: string): (r: string)
    ensures |r| == |title|
    ensures forall k :: 0 <= k < |title| ==> r[k] == if IsAsciiAlnum(title[k]) then title[k] else '_'
  {
    if title == [] then []
    else [if IsAsciiAlnum(title[0]) then title[0] else '_'] + SanitizeTitle(title[1..])
  }

  /** `format || 'pdf'`. */
  function Extension(format: Option<string>): string {
    if Truthy(format) then format.value else "pdf"
  }

  /** The `download` name of `downloadBook`. */
  function DownloadName(title: string, format: Option<string>): string {
    SanitizeTitle(title) + "." + Extension(format)
  }

  /** The `download` name of `downloadSample`. */
  function SampleName(title: string, format: Option<string>): string {
    "Sample_" + DownloadName(title, format)
  }

  /** The download name is as long as the title, holds only ASCII letters,
      digits and `_` in that part, then a dot and the format (or `pdf`). */
  lemma DownloadNameShape(title: string, format: Option<string>)
    ensures var n := DownloadName(title, format);
      && |n| == |title| + 1 + |Extension(format)|
      && (forall k :: 0 <= k < |title| ==> IsAsciiAlnum(n[k]) || n[k] == '_')
      && (forall k :: 0 <= k < |title| && IsAsciiAlnum(title[k]) ==> n[k] == title[k])
      && n[|title|] == '.'
      && n[|title| + 1..] == Extension(format)
      && Extension(format) != ""
  {
  }

  /** The Cloudinary rewrite: on a URL containing `cloudinary.com`, the
      first `/upload/` becomes `/upload/` followed by `flag`. */
  function AttachmentHref(url: string, flag: string): string {
    if Includes(url, CLOUDINARY) then ReplaceFirst(url, UPLOAD, UPLOAD + flag) else url
  }

  /** A URL outside Cloudinary, or one without `/upload/`, is kept as is. */
  lemma AttachmentHrefKeeps(url: string, flag: string)
    requires !Includes(url, CLOUDINARY) || !Includes(url, UPLOAD)
    ensures AttachmentHref(url, flag) == url
  {
  }

  /** On a Cloudinary URL whose first `/upload/` is at `i`, the flag is
      inserted right after that `/upload/`; deleting it gives back the URL,
      so every later `/upload/` is left alone. */
  lemma AttachmentHrefInserts(url: string, flag: string, i: nat)
    requires Includes(url, CLOUDINARY) && IndexOf(url, UPLOAD) == Some(i)
    ensures var h := AttachmentHref(url, flag);
      && |h| == |url| + |flag|
      && h[..i + |UPLOAD|] == url[..i + |UPLOAD|]
      && h[i + |UPLOAD|..i + |UPLOAD| + |flag|] == flag
      && h[..i + |UPLOAD|] + h[i + |UPLOAD| + |flag|..] == url
  {
    ReplaceFirstInserts(url, UPLOAD, flag, i);
  }

  /** `downloadBook`: a missing book or a failed fetch ends in a caught
      error;
      otherwise the reader confirms, and the link carries the rewritten URL
      and the sanitised name. */
  function DownloadBook(reply: BookReply, confirmed: bool): (r: Attempt)
    ensures r.Started? <==> reply.Found? && confirmed
    ensures r.Failed? <==> !reply.Found?
    ensures r.Started? ==> r.link.href == AttachmentHref(reply.book.bookFile.url, ATTACHMENT_FLAG)
    ensures r.Started? ==> r.link.download == DownloadName(reply.book.title, reply.book.bookFile.format)
    ensures reply.NotFound? ==> r == Failed("Book not found")
    ensures reply.FetchFailed? ==> r == Failed(reply.message)
  {
    match reply
    case FetchFailed(m) => Failed(m)
    case NotFound => Failed("Book not found")
    case Found(book) =>
      if !confirmed then Declined
      else Started(Link(AttachmentHref(book.bookFile.url, ATTACHMENT_FLAG),
                        DownloadName(book.title, book.bookFile.format)))
  }

  /** `downloadSample`: the same without a confirmation, with the sample
      name and the sample flag. */
  function DownloadSample(reply: BookReply): (r: Attempt)
    ensures r.Started? <==> reply.Found?
    ensures r.Failed? <==> !reply.Found?
    ensures r.Started? ==> r.link.href == AttachmentHref(reply.book.bookFile.url, SAMPLE_FLAG)
    ensures r.Started? ==> r.link.download == SampleName(reply.book.title, reply.book.bookFile.format)
    ensures reply.NotFound? ==> r == Failed("Book not found")
    ensures reply.FetchFailed? ==> r == Failed(reply.message)
  {
    match reply
    case FetchFailed(m) => Failed(m)
    case NotFound => Failed("Book not found")
    case Found(book) =>
      Started(Link(AttachmentHref(book.bookFile.url, SAMPLE_FLAG),
                   SampleName(book.title, book.bookFile.format)))
  }
}
