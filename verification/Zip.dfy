/** A zip file as the list of its entries. */
module Zip {
  import opened Options

  type Data = seq<bv8>

  /** `content` is Nothing when the entry cannot be opened or read. */
  datatype Entry = Entry(name: string, directory: bool, symlink: bool, declared: nat, content: Option<Data>)

  /** What zip.Writer makes of a name and its bytes. */
  function FileEntry(name: string, data: Data): Entry { Entry(name, false, false, |data|, Just(data)) }
}
