/**
 * Decoded archive records, the run options, and the record filter
 * (`record_valid?`).
 */
module Records {
  import opened Wrappers
  import opened Archive

  /** `repository.pushed_at` as `DateTime.parse` reads it: an instant, or text it rejects. */
  datatype Timestamp = Parsed(at: Instant) | Unparsable(text: string)

  /** The `repository` object of a record; a field that is absent or null is `None`. */
  datatype Repository = Repository(url: Option<string>, pushedAt: Option<Timestamp>)

  /** One decoded record; only `type` and `repository` are read. */
  datatype Record = Record(kind: Option<string>, repository: Option<Repository>)

  /** The run options: the window `after`..`before`, the event type and the result limit. */
  datatype Options = Options(after: Instant, before: Instant, eventName: string, count: int)

  /** `DateTime.parse` raised on the record's `pushed_at`. */
  datatype FilterError = UnparsableTimestamp(text: string)

  /** The record carries a repository with both a `url` and a `pushed_at`. */
  predicate HasRepositoryFields(doc: Record) {
    && doc.repository.Some?
    && doc.repository.value.url.Some?
    && doc.repository.value.pushedAt.Some?
  }

  /** The repository URL of a record that has one. */
  function RepositoryUrl(doc: Record): string
    requires HasRepositoryFields(doc)
  {
    doc.repository.value.url.value
  }

  /** The record is of the requested type, complete, and pushed inside the window. */
  predicate InWindow(doc: Record, opts: Options) {
    && doc.kind == Some(opts.eventName)
    && HasRepositoryFields(doc)
    && doc.repository.value.pushedAt.value.Parsed?
    && opts.after <= doc.repository.value.pushedAt.value.at <= opts.before
  }

  /**
   * `record_valid?`: the guards are tried in order; an unparsable `pushed_at`
   * of a record that passed the first two is an error, not a rejection.
   */
  function RecordValid(doc: Record, opts: Options): (r: Result<bool, FilterError>)
    ensures doc.kind != Some(opts.eventName) ==> r == Ok(false)
    ensures !HasRepositoryFields(doc) ==> r == Ok(false)
    ensures r.Err? <==>
      doc.kind == Some(opts.eventName) && HasRepositoryFields(doc)
      && doc.repository.value.pushedAt.value.Unparsable?
    ensures r.Err? ==> r.error == UnparsableTimestamp(doc.repository.value.pushedAt.value.text)
    ensures r == Ok(true) <==> InWindow(doc, opts)
  {
    if doc.kind != Some(opts.eventName) then Ok(false)
    else if doc.repository.None? || doc.repository.value.url.None?
         || doc.repository.value.pushedAt.None? then Ok(false)
    else match doc.repository.value.pushedAt.value
      case Unparsable(text) => Err(UnparsableTimestamp(text))
      case Parsed(pushedAt) =>
        if opts.after > pushedAt || pushedAt > opts.before then Ok(false) else Ok(true)
  }

  /** Both bounds of the window are inclusive: a push exactly at either bound is accepted. */
  lemma WindowBoundsInclusive(opts: Options, url: string, t: Instant)
    requires opts.after <= opts.before
    ensures t == opts.after || t == opts.before ==>
      RecordValid(PushRecord(opts.eventName, url, t), opts) == Ok(true)
    ensures t < opts.after || opts.before < t ==>
      RecordValid(PushRecord(opts.eventName, url, t), opts) == Ok(false)
  {
  }

  /** A complete record of the given type, URL and push instant. */
  function PushRecord(kind: string, url: string, t: Instant): Record {
    Record(Some(kind), Some(Repository(Some(url), Some(Parsed(t)))))
  }
}
