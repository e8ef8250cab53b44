/** The note record the app stores and shows. */
module NoteModel {
  /**
   * One note. `lastModified` is the wall-clock time in milliseconds of the
   * last change; it is only ever compared, so an unbounded int stands for the
   * 64-bit value.
   */
  datatype Note = Note(id: string, title: string, body: string, pinned: bool, lastModified: int)
}
