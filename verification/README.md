# Classpath joining in weave

This project models `Paths.getClassPath` from the weave runtime
(`com.continuuity.weave.internal.utils`). The helper takes an ordered list of
classpath entries and returns one classpath string. It strips the whitespace
around every entry, then joins the stripped entries with the path delimiter
`:`. There is no delimiter before the first entry or after the last. The body
of `Paths` is not part of this model. Its behaviour is taken from the
assertions of `PathsTest.testPath`.

- `paths.dfy`, module `Paths`: the whitespace predicate, trimming one entry
  (`TrimStart`, `TrimEnd`, `Trim`), joining (`Join`) and its inverse `Split`,
  and `GetClassPath`, each with the lemmas that characterise it.
- `paths_test.dfy`, module `PathsTest`: the four assertions of `testPath`,
  each proved as a lemma about `GetClassPath`.

Modelling assumptions, not claims about the Java code:
- Whitespace is the space, tab, line feed and carriage return. The test only
  uses the space and the line feed.
- An empty list gives the empty classpath `""`. The test does not cover this
  case.
- The lemmas about splitting the classpath back into entries need entries
  that contain no `:`. With a `:` inside an entry, the join is still defined,
  but it cannot be cut back into the original entries.

## Model

| member | source | states |
|---|---|---|
| Paths.TrimStartSpec | core/src/test/java/com/continuuity/weave/internal/utils/PathsTest.java:30-31 | stripping leading whitespace leaves a suffix of the entry; everything removed is whitespace; the suffix does not start with whitespace |
| Paths.TrimEndSpec | core/src/test/java/com/continuuity/weave/internal/utils/PathsTest.java:30-31 | stripping trailing whitespace leaves a prefix of the entry; everything removed is whitespace; the prefix does not end with whitespace |
| Paths.Trim | core/src/test/java/com/continuuity/weave/internal/utils/PathsTest.java:30-31 | a trimmed entry has no whitespace at either end and is never longer than the entry |
| Paths.TrimSlice | core/src/test/java/com/continuuity/weave/internal/utils/PathsTest.java:30-32 | the trimmed entry is a contiguous part of the entry; only an all-whitespace prefix and an all-whitespace suffix are removed |
| Paths.TrimPadded | core/src/test/java/com/continuuity/weave/internal/utils/PathsTest.java:30-32 | any whitespace padding around a string without whitespace at its ends is removed exactly, and inner whitespace is kept verbatim |
| Paths.TrimFixpoint | core/src/test/java/com/continuuity/weave/internal/utils/PathsTest.java:29-31 | trimming leaves an entry unchanged if and only if it has no whitespace at either end |
| Paths.TrimIdempotent | core/src/test/java/com/continuuity/weave/internal/utils/PathsTest.java:30-31 | trimming an already trimmed entry changes nothing |
| Paths.TrimKeepsDelimiterOut | core/src/test/java/com/continuuity/weave/internal/utils/PathsTest.java:29-32 | trimming an entry that has no `:` cannot produce one |
| Paths.Split | core/src/test/java/com/continuuity/weave/internal/utils/PathsTest.java:29-32 | cutting a classpath at every `:` gives one more piece than there are delimiters; no piece contains `:`; joining the pieces gives back the classpath |
| Paths.SplitJoin | core/src/test/java/com/continuuity/weave/internal/utils/PathsTest.java:29-32 | joining one or more `:`-free parts and then splitting the result gives back the same parts in the same order |
| Paths.JoinTrimmed | core/src/test/java/com/continuuity/weave/internal/utils/PathsTest.java:29-32 | joining trimmed parts gives a string with no whitespace at either end |
| Paths.GetClassPath | core/src/test/java/com/continuuity/weave/internal/utils/PathsTest.java:28-33 | the classpath never starts or ends with whitespace; a single entry gives its own trimmed value; an empty list gives `""` |
| Paths.ClassPathIsJoin | core/src/test/java/com/continuuity/weave/internal/utils/PathsTest.java:29-32 | the classpath is the `:`-join of the trimmed entries, position by position |
| Paths.ClassPathOfTrimmed | core/src/test/java/com/continuuity/weave/internal/utils/PathsTest.java:29 | entries without surrounding whitespace are joined unchanged, in input order |
| Paths.ClassPathSegments | core/src/test/java/com/continuuity/weave/internal/utils/PathsTest.java:29-32 | for one or more `:`-free entries, splitting the classpath at `:` gives exactly one segment per entry, and segment i is the trimmed entry i |
| Paths.ClassPathDelimiterCount | core/src/test/java/com/continuuity/weave/internal/utils/PathsTest.java:29-32 | n `:`-free entries (n at least 1) give exactly n - 1 delimiters: nothing is dropped or added |
| Paths.ClassPathSegmentsTrimmed | core/src/test/java/com/continuuity/weave/internal/utils/PathsTest.java:31 | every segment between delimiters has no whitespace at its ends, so no space or line feed stays next to a `:` |
| PathsTest.ClassPathPlain | core/src/test/java/com/continuuity/weave/internal/utils/PathsTest.java:29 | `["a", "b", "c"]` gives `"a:b:c"` |
| PathsTest.ClassPathSpaces | core/src/test/java/com/continuuity/weave/internal/utils/PathsTest.java:30 | `["a ", "  b  ", "  c"]` gives `"a:b:c"` |
| PathsTest.ClassPathNewlines | core/src/test/java/com/continuuity/weave/internal/utils/PathsTest.java:31 | `["a ", "  b  \n", "\n  c"]` gives `"a:b:c"` |
| PathsTest.ClassPathInnerSpaces | core/src/test/java/com/continuuity/weave/internal/utils/PathsTest.java:32 | `["a b ", "  a b  \n", "\n  a c"]` gives `"a b:a b:a c"` |

## Left out

- The implementation of `Paths.getClassPath` is not part of this model. The model captures only the behaviour the test assertions pin down. It makes no claim that the implementation uses `String.trim` or Guava's `CharMatcher` or `Joiner`.
- Paths.IsWhitespace: the whitespace set (space, tab, line feed, carriage return) is an assumption. Java's `String.trim` also strips other control characters at or below U+0020, and Guava's matchers use a different set.
- Paths.GetClassPath: the empty-list result `""` is a modelling choice, because the test never passes an empty list. A `null` list or `null` entry is not modelled, because Dafny sequences and strings cannot be null.
- Guava's `ImmutableList` is modelled as a Dafny `seq<string>`.
- JUnit (`@Test`, `Assert.assertEquals`) is not modelled: each assertion is a lemma.
- Java strings are sequences of UTF-16 code units. Here they are sequences of Dafny `char`. No encoding question arises for the characters involved.
- The rest of the weave framework (YARN, ZooKeeper, process launching) is not part of this model. It is I/O and distributed plumbing.
