/** Properties of module entries: field retrieval, the compression default,
    copy-then-override, and structural equality. The general lemmas come
    first; the concrete scenarios of the entry's tests follow, each derived
    from the general lemmas. */
module ModuleEntryProperties {
  import opened Wrappers
  import opened Content
  import opened ModuleEntries

  /** A builder with both required fields set, and no other setter called,
      always builds, and the entry reports what was set plus the default
      compression preference. */
  lemma BuildWithRequiredFields(path: ZipPath, supplier: Supplier)
    ensures var r := Build(SetContentSupplier(SetPath(NewBuilder(), path), supplier));
      && r.Some?
      && r.value.path == path
      && r.value.contentSupplier() == supplier()
      && r.value.shouldCompress == DefaultShouldCompress
  {
  }

  /** Copy-then-override of the compression preference changes that field
      only: the rebuilt entry keeps the original path and supplier. */
  lemma OverrideShouldCompress(e: ModuleEntry, shouldCompress: bool)
    ensures Build(SetShouldCompress(ToBuilder(e), shouldCompress))
      == Some(e.(shouldCompress := shouldCompress))
  {
  }

  /** Copy-then-override of the path changes that field only. */
  lemma OverridePath(e: ModuleEntry, path: ZipPath)
    ensures Build(SetPath(ToBuilder(e), path)) == Some(e.(path := path))
  {
  }

  /** Copy-then-override of the content supplier changes that field only. */
  lemma OverrideContentSupplier(e: ModuleEntry, supplier: Supplier)
    ensures Build(SetContentSupplier(ToBuilder(e), supplier))
      == Some(e.(contentSupplier := supplier))
  {
  }

  /** Reading the whole content of an entry built from a byte array, through
      a fresh stream from its supplier, yields exactly those bytes. */
  lemma BuiltContentReadsBack(path: ZipPath, content: seq<byte>)
    ensures ReadAll(Open(CreateEntry(path, content).contentSupplier)) == content
  {
    ReadAllIsRemaining(Open(CreateEntry(path, content).contentSupplier));
  }

  /** Rebuilding an entry with no setter in between gives an equal entry. */
  lemma RebuildEquals(e: ModuleEntry)
    ensures Build(ToBuilder(e)).Some?
    ensures EntryEquals(Build(ToBuilder(e)).value, e)
  {
  }

  /** Entries at different paths are never equal, whatever their content. */
  lemma DifferentPathNotEqual(a: ModuleEntry, b: ModuleEntry)
    requires a.path != b.path
    ensures !EntryEquals(a, b)
  {
  }

  /** Entries whose suppliers yield different bytes are never equal, whatever
      their paths. */
  lemma DifferentContentNotEqual(a: ModuleEntry, b: ModuleEntry)
    requires a.contentSupplier() != b.contentSupplier()
    ensures !EntryEquals(a, b)
  {
  }

  /** Structural equality is an equivalence relation: reflexive, symmetric
      and transitive. */
  lemma EqualsIsEquivalence(a: ModuleEntry, b: ModuleEntry, c: ModuleEntry)
    ensures EntryEquals(a, a)
    ensures EntryEquals(a, b) <==> EntryEquals(b, a)
    ensures EntryEquals(a, b) && EntryEquals(b, c) ==> EntryEquals(a, c)
  {
  }

  /** Two entries built at the same path from two distinct suppliers that
      yield the same bytes are equal: equality looks at the bytes, not at the
      supplier that produces them. */
  lemma SameContentEquals(path: ZipPath, s1: Supplier, s2: Supplier)
    requires s1() == s2()
    ensures EntryEquals(CreateEntryFromSupplier(path, s1), CreateEntryFromSupplier(path, s2))
  {
  }

  /** The `builder` test: path "a", content {'a'}, copied and rebuilt with
      compression switched off. */
  lemma BuilderScenario()
    ensures var e := Build(SetShouldCompress(ToBuilder(CreateEntry("a", [0x61])), false));
      && e.Some?
      && e.value.path == "a"
      && !e.value.shouldCompress
      && ReadAll(Open(e.value.contentSupplier)) == [0x61]
  {
    OverrideShouldCompress(CreateEntry("a", [0x61]), false);
    BuiltContentReadsBack("a", [0x61]);
  }

  /** The `builder_defaults` test: an entry built without a compression
      preference compresses. */
  lemma BuilderDefaultsScenario()
    ensures CreateEntry("a", []).shouldCompress
  {
  }

  /** The `equals_differentPath` test. */
  lemma EqualsDifferentPathScenario()
    ensures !EntryEquals(CreateEntry("a", []), CreateEntry("b", []))
  {
    DifferentPathNotEqual(CreateEntry("a", []), CreateEntry("b", []));
  }

  /** The `equals_differentFileContents` test. */
  lemma EqualsDifferentFileContentsScenario()
    ensures !EntryEquals(CreateEntry("a", [0x61]), CreateEntry("a", [0x62]))
  {
    DifferentContentNotEqual(CreateEntry("a", [0x61]), CreateEntry("a", [0x62]));
  }

  /** The `equals_sameFiles` test: an entry equals itself. */
  lemma EqualsSameFilesScenario()
    ensures var e := CreateEntry("a", [0x61]); EntryEquals(e, e)
  {
    var e := CreateEntry("a", [0x61]);
    EqualsIsEquivalence(e, e, e);
  }
}
