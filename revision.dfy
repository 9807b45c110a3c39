/** The three places where the repository's code evidently does not do what
    its authors meant are modelled twice: as written, and as fixed. Members
    that contain such a place take a `Revision`; every other property of the
    model holds for both. */
module Revisions {

  datatype Revision = AsWritten | Fixed
}
