/** One entry (a virtual file) of an app-bundle module: an immutable value
    holding the entry's path, its compression preference and a repeatable
    supplier of its bytes, built through a builder and compared by path and
    content. */
module ModuleEntries {
  import opened Wrappers
  import opened Content

  /** A path inside the module archive, treated as an opaque value compared
      by equality; normalisation is not part of this model. */
  type ZipPath = string

  /** The immutable entry. */
  datatype ModuleEntry = ModuleEntry(
    path: ZipPath,
    shouldCompress: bool,
    contentSupplier: Supplier)

  /** Staging value for one entry: every field is absent until set. */
  datatype Builder = Builder(
    path: Option<ZipPath>,
    shouldCompress: Option<bool>,
    contentSupplier: Option<Supplier>)

  /** The compression preference of an entry whose builder never set it. */
  const DefaultShouldCompress: bool := true

  /** A builder with no field set. */
  function NewBuilder(): (b: Builder)
    ensures b.path.None? && b.shouldCompress.None? && b.contentSupplier.None?
  {
    Builder(None, None, None)
  }

  function SetPath(b: Builder, path: ZipPath): (r: Builder)
    ensures r.path == Some(path)
    ensures r.shouldCompress == b.shouldCompress && r.contentSupplier == b.contentSupplier
  {
    b.(path := Some(path))
  }

  function SetShouldCompress(b: Builder, shouldCompress: bool): (r: Builder)
    ensures r.shouldCompress == Some(shouldCompress)
    ensures r.path == b.path && r.contentSupplier == b.contentSupplier
  {
    b.(shouldCompress := Some(shouldCompress))
  }

  function SetContentSupplier(b: Builder, supplier: Supplier): (r: Builder)
    ensures r.contentSupplier == Some(supplier)
    ensures r.path == b.path && r.shouldCompress == b.shouldCompress
  {
    b.(contentSupplier := Some(supplier))
  }

  /** Builds an entry from the builder's current fields. The build fails
      exactly when the path or the content supplier is missing; an unset
      compression preference becomes the default. */
  function Build(b: Builder): (r: Option<ModuleEntry>)
    ensures r.Some? <==> b.path.Some? && b.contentSupplier.Some?
    ensures r.Some? ==> r.value.path == b.path.value
    ensures r.Some? ==> r.value.contentSupplier == b.contentSupplier.value
    ensures r.Some? && b.shouldCompress.Some? ==> r.value.shouldCompress == b.shouldCompress.value
    ensures r.Some? && b.shouldCompress.None? ==> r.value.shouldCompress
  {
    match (b.path, b.contentSupplier)
    case (Some(path), Some(supplier)) =>
      Some(ModuleEntry(path, b.shouldCompress.GetOr(DefaultShouldCompress), supplier))
    case _ => None
  }

  /** A builder pre-populated with every field of `e`, so that one field can
      be overridden and the entry rebuilt. Building it unchanged gives back
      `e` itself. */
  function ToBuilder(e: ModuleEntry): (b: Builder)
    ensures b.path == Some(e.path)
    ensures b.shouldCompress == Some(e.shouldCompress)
    ensures b.contentSupplier == Some(e.contentSupplier)
    ensures Build(b) == Some(e)
  {
    Builder(Some(e.path), Some(e.shouldCompress), Some(e.contentSupplier))
  }

  /** The entry the test helper builds from a path and a supplier: only the
      two required setters are called, so the build always succeeds. */
  function CreateEntryFromSupplier(path: ZipPath, supplier: Supplier): (e: ModuleEntry)
    ensures Build(SetContentSupplier(SetPath(NewBuilder(), path), supplier)) == Some(e)
    ensures e.path == path && e.contentSupplier == supplier
    ensures e.shouldCompress
  {
    Build(SetContentSupplier(SetPath(NewBuilder(), path), supplier)).value
  }

  /** The entry the test helper builds from a path and a byte array: its
      supplier opens a new stream over the same array on every call. */
  function CreateEntry(path: ZipPath, content: seq<byte>): (e: ModuleEntry)
    ensures e.path == path && e.shouldCompress
    ensures e.contentSupplier() == content
  {
    CreateEntryFromSupplier(path, () => content)
  }

  /** Structural equality: equal paths and byte-for-byte equal content. */
  predicate EntryEquals(a: ModuleEntry, b: ModuleEntry) {
    a.path == b.path && a.contentSupplier() == b.contentSupplier()
  }

  /** Decides structural equality: compares the paths, then reads and
      compares the content of both suppliers. */
  method Equals(a: ModuleEntry, b: ModuleEntry) returns (eq: bool)
    ensures eq <==> EntryEquals(a, b)
  {
    if a.path != b.path {
      return false;
    }
    eq := ContentEquals(a.contentSupplier, b.contentSupplier);
  }
}
