/** The catalog record. Its fields are the ones the components read from the
    dataset module (the dataset itself is not part of this model). */
module Languages {

  /** One language of the catalog; `year` is `0` when unknown, `creator`, `paradigm`,
      `purpose` and `history` may be empty and `facts` may be empty. */
  datatype Language = Language(
    id: string,
    name: string,
    creator: string,
    year: int,
    paradigm: string,
    syntax: string,
    purpose: string,
    history: string,
    facts: seq<string>)
}
