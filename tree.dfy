/** The bucket tree a scan reads, given as a value instead of a filesystem:
    `<root>/buckets/<bucket>/bucket/<file>`. Each listing is already read, in
    directory-listing order; an entry of a listing can itself fail (the
    `io::Result` that `read_dir` yields), and so can reading a file. */
module Tree {
  import opened Json

  /** What reading a manifest file gives: a read error, bytes that are not
      JSON, or a parsed JSON value. */
  datatype Contents = Unreadable | Unparsable | Parsed(value: Value)

  datatype DirEntry<T> = BadEntry | Entry(value: T)

  /** `read_dir`: the directory cannot be listed, or its entries in listing order. */
  datatype Listing<T> = Unlistable | Listed(entries: seq<DirEntry<T>>)

  datatype ManifestFile = ManifestFile(name: string, contents: Contents)

  /** A bucket directory: its name and the listing of its `bucket` subdirectory. */
  datatype Bucket = Bucket(name: string, manifests: Listing<ManifestFile>)

  /** The listing of `<root>/buckets`. */
  type Root = Listing<Bucket>
}
