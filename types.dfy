/** The commit record shared by the queue and the formatter.
    The record definition lives in `./types`, which is not part of this
    model; the fields below are the ones the core reads. */
module Types {
  import opened Wrappers

  /** A commit waiting to be broadcast. `sha` is its identity key,
      `author` its GitHub user name (absent when unknown) and `date` the
      timestamp the queue orders by. */
  datatype Commit = Commit(
    sha: string,
    author: Option<string>,
    message: string,
    url: string,
    date: int)
}
