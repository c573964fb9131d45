/** The statically typed book record and DTOs shared by the C# and Java
    services (the C# models Book.cs and CreateBookDto.cs, the Java Book.java and
    CreateBookDto.java). Framework validation guarantees the four create
    fields are present; an update DTO field is null when not supplied.
    The update DTO classes are not part of this model: their fields are
    taken to be the four nullable strings the services test. */
module TypedRecords {
  import opened Common

  datatype Book = Book(id: string, title: string, author: string, description: string, coverImageUrl: string)

  datatype CreateBookDto = CreateBookDto(title: string, author: string, description: string, coverImageUrl: string)

  datatype UpdateBookDto = UpdateBookDto(title: Option<string>, author: Option<string>,
                                         description: Option<string>, coverImageUrl: Option<string>)

  /** The record a create builds: the id given, every other field from the DTO. */
  function FromDto(id: string, dto: CreateBookDto): (b: Book)
    ensures b.id == id
    ensures b.title == dto.title && b.author == dto.author
    ensures b.description == dto.description && b.coverImageUrl == dto.coverImageUrl
  {
    Book(id, dto.title, dto.author, dto.description, dto.coverImageUrl)
  }

  /** The setters an update runs on the stored record: each field is
      overwritten when the DTO field is non-null. */
  function ApplyUpdate(b: Book, dto: UpdateBookDto): (r: Book)
    ensures r.id == b.id
    ensures r.title != b.title ==> dto.title == Some(r.title)
    ensures r.author != b.author ==> dto.author == Some(r.author)
    ensures r.description != b.description ==> dto.description == Some(r.description)
    ensures r.coverImageUrl != b.coverImageUrl ==> dto.coverImageUrl == Some(r.coverImageUrl)
  {
    Book(b.id,
         if dto.title.Some? then dto.title.value else b.title,
         if dto.author.Some? then dto.author.value else b.author,
         if dto.description.Some? then dto.description.value else b.description,
         if dto.coverImageUrl.Some? then dto.coverImageUrl.value else b.coverImageUrl)
  }

  /** An update never changes the id; a field changes only to a value the
      DTO supplies, and every supplied value is taken, the empty string
      included. */
  lemma ApplyUpdateFields(b: Book, dto: UpdateBookDto)
    ensures var r := ApplyUpdate(b, dto);
            && r.id == b.id
            && (dto.title.Some? ==> r.title == dto.title.value) && (dto.title.None? ==> r.title == b.title)
            && (dto.author.Some? ==> r.author == dto.author.value) && (dto.author.None? ==> r.author == b.author)
            && (dto.description.Some? ==> r.description == dto.description.value)
            && (dto.description.None? ==> r.description == b.description)
            && (dto.coverImageUrl.Some? ==> r.coverImageUrl == dto.coverImageUrl.value)
            && (dto.coverImageUrl.None? ==> r.coverImageUrl == b.coverImageUrl)
  {
  }

  /** Applying the same update twice is applying it once. */
  lemma ApplyUpdateIdempotent(b: Book, dto: UpdateBookDto)
    ensures ApplyUpdate(ApplyUpdate(b, dto), dto) == ApplyUpdate(b, dto)
  {
  }

  /** An update with every field null leaves the record as it was. */
  lemma EmptyUpdateIsIdentity(b: Book)
    ensures ApplyUpdate(b, UpdateBookDto(None, None, None, None)) == b
  {
  }

  /** An update supplying all four fields yields the record a create with
      those fields would build, under the old id. */
  lemma FullUpdateIsRecreate(b: Book, dto: CreateBookDto)
    ensures ApplyUpdate(b, UpdateBookDto(Some(dto.title), Some(dto.author), Some(dto.description), Some(dto.coverImageUrl)))
            == FromDto(b.id, dto)
  {
  }
}
