# ModuleEntry — a Dafny model

This project models `ModuleEntry` of bundletool: the immutable value that
describes one file inside an app-bundle module. An entry has three
attributes:

- a path inside the module (`ZipPath`);
- a compression preference (`shouldCompress`);
- a repeatable content supplier that opens a fresh stream over the entry's
  bytes each time it is called.

Entries are created through a builder. `toBuilder()` copies an entry into a
new builder so that one field can be overridden and the entry rebuilt. Two
entries are equal when their paths are equal and their suppliers yield the
same bytes.

Behaviour is reconstructed from `ModuleEntryTest.java`, which pins it down:

- the `builder` test: field retrieval and copy-then-override;
- the `builder_defaults` test: the compression default;
- the three `equals_*` tests: structural equality;
- the two `createEntry` helpers: construction.

Files:

- `wrappers.dfy` — module `Wrappers`: the `Option` datatype. It is used for
  builder fields that were never set, and for a build that cannot complete.
- `content.dfy` — module `Content`. A byte is a `bv8`. A supplier is a pure
  function `() -> seq<byte>`, so calling it again always yields the same
  bytes. `Open` is one supplier call: a `Stream` positioned at offset 0.
  `ReadChunk` is one buffered read. `ToByteArray` reads a stream to the end,
  as the test's `toByteArray` helper does. `ContentEquals` reads both sides
  in full and compares the lengths, then the bytes.
- `module_entry.dfy` — module `ModuleEntries`: `ModuleEntry`, `Builder`, the
  setters, `Build`, `ToBuilder`, the two test helpers, and equality.
  Equality has two forms. `EntryEquals` is the reference predicate.
  `Equals` is the executable check that reads the streams.
- `module_entry_properties.dfy` — module `ModuleEntryProperties`. It holds
  the general lemmas, then one lemma per test scenario, each derived from
  the general lemmas.

The model assumes the compression flag does not take part in equality:
equality compares the path and the content only, and `Equals`'s contract
depends on that assumption (see Left out).

## Model

| member | source | states |
|---|---|---|
| Content.Open | src/test/java/com/android/tools/build/bundletool/model/ModuleEntryTest.java:72 | one supplier call gives a valid stream whose unread bytes are exactly the supplier's content, that is, a fresh stream at offset 0 |
| Content.ReadChunk | src/test/java/com/android/tools/build/bundletool/model/ModuleEntryTest.java:39 | one read returns at most the buffer size; it is empty exactly at end of stream; the chunk followed by what is still unread is what was unread before |
| Content.ReadAllIsRemaining | src/test/java/com/android/tools/build/bundletool/model/ModuleEntryTest.java:39 | reading a stream chunk by chunk until end of stream yields exactly its unread bytes: nothing is lost, duplicated or reordered |
| Content.ToByteArray | src/test/java/com/android/tools/build/bundletool/model/ModuleEntryTest.java:39 | reading a freshly opened stream to completion returns exactly the supplier's bytes |
| Content.ContentEquals | src/test/java/com/android/tools/build/bundletool/model/ModuleEntryTest.java:56-61 | the byte comparison of two suppliers answers true if and only if they yield the same byte sequence |
| ModuleEntries.NewBuilder | src/test/java/com/android/tools/build/bundletool/model/ModuleEntryTest.java:76 | a fresh builder has no field set |
| ModuleEntries.SetPath | src/test/java/com/android/tools/build/bundletool/model/ModuleEntryTest.java:76 | setting the path records it and leaves the other two fields unchanged |
| ModuleEntries.SetContentSupplier | src/test/java/com/android/tools/build/bundletool/model/ModuleEntryTest.java:76 | setting the supplier records it and leaves the other two fields unchanged |
| ModuleEntries.SetShouldCompress | src/test/java/com/android/tools/build/bundletool/model/ModuleEntryTest.java:35 | setting the flag records it and leaves path and supplier unchanged |
| ModuleEntries.Build | src/test/java/com/android/tools/build/bundletool/model/ModuleEntryTest.java:71-77 | the build succeeds if and only if path and supplier are both set; the entry carries the set path and supplier; the flag is the set value, or true when never set |
| ModuleEntries.ToBuilder | src/test/java/com/android/tools/build/bundletool/model/ModuleEntryTest.java:35 | the builder holds every field of the entry, and building it unchanged gives back the same entry |
| ModuleEntries.CreateEntryFromSupplier | src/test/java/com/android/tools/build/bundletool/model/ModuleEntryTest.java:75-77 | calling only the two required setters always builds; the entry has the given path and supplier and compresses by default |
| ModuleEntries.CreateEntry | src/test/java/com/android/tools/build/bundletool/model/ModuleEntryTest.java:71-73 | an entry built from a byte array has the given path, compresses by default, and its supplier yields exactly that array |
| ModuleEntries.Equals | src/test/java/com/android/tools/build/bundletool/model/ModuleEntryTest.java:48-69 | the executable check, which compares paths and then reads both streams, agrees with structural equality on every pair of entries |
| ModuleEntryProperties.BuildWithRequiredFields | src/test/java/com/android/tools/build/bundletool/model/ModuleEntryTest.java:71-76 | for every path and supplier, setting only those two fields builds an entry that reports them, with the default flag |
| ModuleEntryProperties.OverrideShouldCompress | src/test/java/com/android/tools/build/bundletool/model/ModuleEntryTest.java:35-39 | copy-then-override of the flag yields the original entry with only the flag replaced |
| ModuleEntryProperties.OverridePath | src/test/java/com/android/tools/build/bundletool/model/ModuleEntryTest.java:35 | copy-then-override of the path yields the original entry with only the path replaced |
| ModuleEntryProperties.OverrideContentSupplier | src/test/java/com/android/tools/build/bundletool/model/ModuleEntryTest.java:35 | copy-then-override of the supplier yields the original entry with only the supplier replaced |
| ModuleEntryProperties.BuiltContentReadsBack | src/test/java/com/android/tools/build/bundletool/model/ModuleEntryTest.java:34-39 | reading the whole content of an entry built from a byte array, through a fresh stream, yields exactly that array |
| ModuleEntryProperties.RebuildEquals | src/test/java/com/android/tools/build/bundletool/model/ModuleEntryTest.java:35 | rebuilding an entry with no setter in between always succeeds and gives an entry equal to the original |
| ModuleEntryProperties.DifferentPathNotEqual | src/test/java/com/android/tools/build/bundletool/model/ModuleEntryTest.java:49-53 | entries with different paths are never equal, whatever their content |
| ModuleEntryProperties.DifferentContentNotEqual | src/test/java/com/android/tools/build/bundletool/model/ModuleEntryTest.java:57-61 | entries whose suppliers yield different bytes are never equal, whatever their paths |
| ModuleEntryProperties.EqualsIsEquivalence | src/test/java/com/android/tools/build/bundletool/model/ModuleEntryTest.java:65-68 | equality is reflexive, symmetric and transitive |
| ModuleEntryProperties.SameContentEquals | src/test/java/com/android/tools/build/bundletool/model/ModuleEntryTest.java:71-76 | for every path and any two suppliers, possibly distinct, that yield the same bytes, the two entries built from them are equal |
| ModuleEntryProperties.BuilderScenario | src/test/java/com/android/tools/build/bundletool/model/ModuleEntryTest.java:32-40 | path "a" with content {'a'}, copied and rebuilt with the flag false, reports path "a", flag false and content {'a'} |
| ModuleEntryProperties.BuilderDefaultsScenario | src/test/java/com/android/tools/build/bundletool/model/ModuleEntryTest.java:43-46 | path "a" with empty content reports the flag true |
| ModuleEntryProperties.EqualsDifferentPathScenario | src/test/java/com/android/tools/build/bundletool/model/ModuleEntryTest.java:49-54 | paths "a" and "b", both with empty content, are not equal |
| ModuleEntryProperties.EqualsDifferentFileContentsScenario | src/test/java/com/android/tools/build/bundletool/model/ModuleEntryTest.java:57-62 | path "a" with {'a'} and path "a" with {'b'} are not equal |
| ModuleEntryProperties.EqualsSameFilesScenario | src/test/java/com/android/tools/build/bundletool/model/ModuleEntryTest.java:65-69 | an entry with path "a" and content {'a'} equals itself |

## Left out

- Streams as objects: closing a stream and I/O errors raised while reading are not modelled. A supplier is a pure, total function, so every call yields the same bytes and never fails.
- `ZipPath`: `ZipPath.create` and path normalisation are not part of this model. A path is an opaque string compared by equality, so `ZipPath.create("a")` is the string "a".
- `hashCode`: the tests never use it.
- Missing-field errors: `Build` returns `None` when the path or the supplier is missing. The tests never check the error or its message, so the model makes no claim about them.
- `shouldCompress` in equality: the tests do not settle whether the flag takes part. The model assumes it does not: `EntryEquals` compares only path and content, so `Equals` reports two entries that differ only in the flag as equal.
- `BufferSize` and the chunked reader: how the test's `toByteArray` helper reads a stream is not part of this model's sources. The 8192-byte chunk size and the chunk-by-chunk loop are assumptions; only the result, the full content, is relied on.
- Proof effort: the entry and builder operations are record updates, so their lemmas are proved without hints. The non-automatic proofs are in the stream reading (`ReadAllIsRemaining`, `ToByteArray`, `ContentEquals`).
- Reference-equality short-circuit in `equals`: entries are values here, so an entry compared with itself is simply read twice.
- Java byte arrays hold signed bytes. Here a byte is a `bv8`, so `'a'` is `0x61`; the sign never matters to equality or to reading.
