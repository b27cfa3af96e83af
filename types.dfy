/** The records of the portal (types.ts). An optional TypeScript property (`videoUrls?`,
    `pdfUrl?`, `aiNotes?`) is an `Option`. Grades are integers. */
module Types {
  import opened Wrappers

  datatype ClassGroup = ClassGroup(id: string, name: string, description: string)

  /** A training session. `videoUrl` is the legacy primary video; `videoUrls`, when
      present, is the full ordered list (primary first). */
  datatype Session = Session(
    id: string,
    classId: string,
    title: string,
    description: string,
    videoUrl: string,
    videoUrls: Option<seq<string>>,
    pdfUrl: Option<string>,
    date: string,
    aiNotes: Option<string>,
    isHighlight: bool)

  datatype Student = Student(
    id: string,
    classId: string,
    name: string,
    note1: int,
    note2: int,
    note3: int)

  datatype Activity = Activity(
    id: string,
    title: string,
    date: string,
    description: string,
    imageUrl: Option<string>,
    pdfUrl: Option<string>)

  datatype UserRole = Guest | StudentRole | Teacher

  /** JavaScript truthiness of an optional string: present and not `''`. */
  predicate Truthy(s: Option<string>)
  {
    s.Some? && s.value != ""
  }

  /** `s || ''`. */
  function OrEmpty(s: Option<string>): string
  {
    if Truthy(s) then s.value else ""
  }
}
