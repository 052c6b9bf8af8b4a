/** The link states the crawler assigns. The enumeration itself lives in a file that is
    not part of this model; its five values are the ones the index and the crawler use. */
module LinkStatus {

  datatype Status = Undefined | Found | NotFound | Ignored | Redirection
  {
    /** A status the crawler never changes again. */
    predicate Terminal()
    {
      this != Undefined
    }
  }
}
