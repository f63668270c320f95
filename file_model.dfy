/** The book record of the file service: one ePub asset and one cover image,
    each located by the public id and URL the blob store gave it, plus the
    reader-facing title, author and description. */
module BookSchema {
  import opened Js

  /** Where a stored asset lives: the name it was uploaded under, the blob
      store's public id, and its delivery URL. */
  datatype Locator = Locator(originalName: string, publicId: string, url: string)

  /** The ePub locator is kept flat at the top level; the cover is nested. */
  datatype Book = Book(
    id: string,
    originalName: string,
    publicId: string,
    url: string,
    uploadDate: int,
    coverImage: Locator,
    title: Option<string>,
    author: Option<string>,
    description: Option<string>)

  predicate ValidLocator(l: Locator) {
    Required(l.originalName) && Required(l.publicId) && Required(l.url)
  }

  function EpubLocator(b: Book): Locator {
    Locator(b.originalName, b.publicId, b.url)
  }

  /** The schema's validation: every locator field is required, at the top
      level and inside `coverImage`; title and author are required; the
      description is optional. */
  predicate ValidBook(b: Book) {
    ValidLocator(EpubLocator(b)) && ValidLocator(b.coverImage) && Truthy(b.title) && Truthy(b.author)
  }

  /** `new File({...})`: the `_id` default is a fresh UUID and `uploadDate`
      defaults to the creation time; both come in as parameters. */
  function NewBook(freshId: string, now: int, epub: Locator, cover: Locator,
                   title: Option<string>, author: Option<string>, description: Option<string>): Book
  {
    Book(freshId, epub.originalName, epub.publicId, epub.url, now, cover, title, author, description)
  }

  /** A new record passes validation exactly when both locators are complete
      and a non-empty title and author were supplied; the description plays
      no part. */
  lemma {:induction false} NewBookValid(freshId: string, now: int, epub: Locator, cover: Locator,
                     title: Option<string>, author: Option<string>, description: Option<string>)
    ensures ValidBook(NewBook(freshId, now, epub, cover, title, author, description))
        <==> ValidLocator(epub) && ValidLocator(cover) && Truthy(title) && Truthy(author)
  {
  }
}
