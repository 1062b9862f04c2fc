/**
 * The four assertions of PathsTest.testPath, each stated as a lemma about
 * Paths.GetClassPath.
 */
module PathsTest {
  import opened Paths

  /** Joining three parts puts exactly one delimiter between neighbours. */
  lemma JoinThree(a: string, b: string, c: string)
    ensures Join([a, b, c]) == a + [Delimiter] + b + [Delimiter] + c
  {
    assert [a, b, c][1..] == [b, c];
    assert [b, c][1..] == [c];
    assert Join([b, c]) == b + [Delimiter] + c;
  }

  /** A three-entry classpath, once each entry's trimmed value is known. */
  lemma ClassPathThree(e0: string, e1: string, e2: string, p0: string, p1: string, p2: string)
    requires Trim(e0) == p0 && Trim(e1) == p1 && Trim(e2) == p2
    ensures GetClassPath([e0, e1, e2]) == p0 + [Delimiter] + p1 + [Delimiter] + p2
  {
    ClassPathIsJoin([e0, e1, e2], [p0, p1, p2]);
    JoinThree(p0, p1, p2);
  }

  /** Trimming `pre + mid + post` once the three pieces are known. */
  lemma TrimOf(s: string, pre: string, mid: string, post: string)
    requires s == pre + mid + post
    requires AllWhitespace(pre) && AllWhitespace(post) && IsTrimmed(mid)
    ensures Trim(s) == mid
  {
    TrimPadded(pre, mid, post);
  }

  /** Entries without surrounding whitespace are joined in order. */
  lemma ClassPathPlain()
    ensures GetClassPath(["a", "b", "c"]) == "a:b:c"
  {
    var entries := ["a", "b", "c"];
    assert IsTrimmed(entries[0]) && IsTrimmed(entries[1]) && IsTrimmed(entries[2]);
    ClassPathOfTrimmed(entries);
    JoinThree("a", "b", "c");
  }

  /** Leading and trailing spaces are removed from each entry on its own. */
  lemma ClassPathSpaces()
    ensures GetClassPath(["a ", "  b  ", "  c"]) == "a:b:c"
  {
    var e0, e1, e2 := "a ", "  b  ", "  c";
    assert Trim(e0) == "a" by { TrimOf(e0, [], "a", " "); }
    assert Trim(e1) == "b" by { TrimOf(e1, "  ", "b", "  "); }
    assert Trim(e2) == "c" by { TrimOf(e2, "  ", "c", []); }
    ClassPathThree(e0, e1, e2, "a", "b", "c");
  }

  /** Line feeds mixed with spaces at the ends of an entry are removed too. */
  lemma ClassPathNewlines()
    ensures GetClassPath(["a ", "  b  \n", "\n  c"]) == "a:b:c"
  {
    var e0, e1, e2 := "a ", "  b  \n", "\n  c";
    assert Trim(e0) == "a" by { TrimOf(e0, [], "a", " "); }
    assert Trim(e1) == "b" by { TrimOf(e1, "  ", "b", "  \n"); }
    assert Trim(e2) == "c" by { TrimOf(e2, "\n  ", "c", []); }
    ClassPathThree(e0, e1, e2, "a", "b", "c");
  }

  /** Whitespace inside an entry is kept verbatim; only the ends are trimmed. */
  lemma ClassPathInnerSpaces()
    ensures GetClassPath(["a b ", "  a b  \n", "\n  a c"]) == "a b:a b:a c"
  {
    var e0, e1, e2 := "a b ", "  a b  \n", "\n  a c";
    assert Trim(e0) == "a b" by { TrimOf(e0, [], "a b", " "); }
    assert Trim(e1) == "a b" by { TrimOf(e1, "  ", "a b", "  \n"); }
    assert Trim(e2) == "a c" by { TrimOf(e2, "\n  ", "a c", []); }
    ClassPathThree(e0, e1, e2, "a b", "a b", "a c");
  }
}
