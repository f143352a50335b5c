/**
  Pieces shared by the screens: the colour names of the component library and
  the outcome of a request a screen sends to refresh its data.
*/
module Ui {

  /** The palette names a status chip can take. */
  datatype Color = Default | Primary | Secondary | Success | Error | Warning | Info

  /** The answer to a list or stats request: its data, or a thrown error. */
  datatype Fetched<T> = Loaded(data: T) | FetchError

  /** A screen's copy of the server's data and its `loading` flag. */
  datatype Cached<T> = Cached(data: T, loading: bool)

  /**
    The `try { set(data); setLoading(false) } catch { setLoading(false) }` shape
    every screen uses: a successful answer replaces the data wholesale, a failed
    one keeps the old data; either way loading ends.
  */
  function Settle<T>(s: Cached<T>, answer: Fetched<T>): (s': Cached<T>)
    ensures !s'.loading
    ensures answer.Loaded? ==> s'.data == answer.data
    ensures answer.FetchError? ==> s'.data == s.data
  {
    match answer
    case Loaded(d) => Cached(d, false)
    case FetchError => s.(loading := false)
  }

  /** Receiving the same answer twice leaves the screen as receiving it once. */
  lemma SettleIdempotent<T>(s: Cached<T>, answer: Fetched<T>)
    ensures Settle(Settle(s, answer), answer) == Settle(s, answer)
  {
  }
}
