/**
  The string helper of FileAssertions: `removeWhiteSpaces` returns a
  processor that deletes every tab, space and newline of a string, one
  character kind after another, as `str_replace` with a list of searches
  does.
 */
module FileAssertions {

  /** The characters `removeWhiteSpaces` deletes; carriage returns and other blanks are kept. */
  predicate IsRemoved(c: char) {
    c == '\t' || c == ' ' || c == '\n'
  }

  /** `str_replace($c, '', $s)` for a single character `c`. */
  function Delete(s: string, c: char): (r: string)
    ensures |r| <= |s|
    ensures forall i :: 0 <= i < |r| ==> r[i] != c && r[i] in s
  {
    if s == [] then []
    else if s[0] == c then Delete(s[1..], c)
    else [s[0]] + Delete(s[1..], c)
  }

  /** The reference: the characters that are not tab, space or newline, in order. */
  function KeepVisible(s: string): string {
    if s == [] then []
    else if IsRemoved(s[0]) then KeepVisible(s[1..])
    else [s[0]] + KeepVisible(s[1..])
  }

  /**
    `str_replace(["\t", " ", "\n"], '', $s)`: tabs, then spaces, then
    newlines are deleted. The result is the one-pass reference: every other
    character, in order. No tab, space or newline is left, and every
    character left was in `s`.
   */
  function RemoveWhiteSpaces(s: string): (r: string)
    ensures r == KeepVisible(s)
    ensures |r| <= |s|
    ensures forall i :: 0 <= i < |r| ==> !IsRemoved(r[i]) && r[i] in s
  {
    DeletionsKeepVisible(s);
    Delete(Delete(Delete(s, '\t'), ' '), '\n')
  }

  lemma {:induction false} DeleteAppend(a: string, b: string, c: char)
    ensures Delete(a + b, c) == Delete(a, c) + Delete(b, c)
  {
    if a == [] {
      assert a + b == b;
    } else {
      assert (a + b)[0] == a[0];
      assert (a + b)[1..] == a[1..] + b;
      DeleteAppend(a[1..], b, c);
    }
  }

  lemma {:induction false} KeepVisibleAppend(a: string, b: string)
    ensures KeepVisible(a + b) == KeepVisible(a) + KeepVisible(b)
  {
    if a == [] {
      assert a + b == b;
    } else {
      assert (a + b)[0] == a[0];
      assert (a + b)[1..] == a[1..] + b;
      KeepVisibleAppend(a[1..], b);
    }
  }

  /** Deleting the three kinds one after another deletes exactly the characters of those kinds. */
  lemma {:induction false} DeletionsKeepVisible(s: string)
    ensures Delete(Delete(Delete(s, '\t'), ' '), '\n') == KeepVisible(s)
  {
    if s != [] {
      var head, tail := [s[0]], s[1..];
      assert s == head + tail;
      DeleteAppend(head, tail, '\t');
      DeleteAppend(Delete(head, '\t'), Delete(tail, '\t'), ' ');
      DeleteAppend(Delete(Delete(head, '\t'), ' '), Delete(Delete(tail, '\t'), ' '), '\n');
      assert head[1..] == [];
      DeletionsKeepVisible(tail);
    }
  }

  /**
    Every other character is kept, in its original order: removing the
    whitespace of a concatenation removes it from each part, and a single
    character that is not tab, space or newline stays.
   */
  lemma OtherCharactersKept(a: string, b: string, c: char)
    ensures RemoveWhiteSpaces(a + b) == RemoveWhiteSpaces(a) + RemoveWhiteSpaces(b)
    ensures RemoveWhiteSpaces([c]) == if IsRemoved(c) then [] else [c]
  {
    KeepVisibleAppend(a, b);
    assert [c][1..] == [];
  }

  /** A string without tab, space or newline is returned unchanged. */
  lemma {:induction false} UnchangedWithoutWhiteSpace(s: string)
    requires forall i :: 0 <= i < |s| ==> !IsRemoved(s[i])
    ensures RemoveWhiteSpaces(s) == s
  {
    VisibleUnchanged(s);
  }

  lemma {:induction false} VisibleUnchanged(s: string)
    requires forall i :: 0 <= i < |s| ==> !IsRemoved(s[i])
    ensures KeepVisible(s) == s
  {
    if s != [] {
      VisibleUnchanged(s[1..]);
    }
  }

  /** Removing the whitespace twice removes nothing more. */
  lemma Idempotent(s: string)
    ensures RemoveWhiteSpaces(RemoveWhiteSpaces(s)) == RemoveWhiteSpaces(s)
  {
    UnchangedWithoutWhiteSpace(RemoveWhiteSpaces(s));
  }

  /** Carriage returns, and any other character outside the three kinds, keep their count. */
  lemma {:induction false} OthersCounted(s: string, c: char)
    requires !IsRemoved(c)
    ensures multiset(RemoveWhiteSpaces(s))[c] == multiset(s)[c]
  {
    VisibleCounted(s, c);
  }

  lemma {:induction false} VisibleCounted(s: string, c: char)
    requires !IsRemoved(c)
    ensures multiset(KeepVisible(s))[c] == multiset(s)[c]
  {
    if s != [] {
      assert s == [s[0]] + s[1..];
      VisibleCounted(s[1..], c);
    }
  }

  /** "a \t\r\nb" loses its tab, space and newline and keeps its carriage return. */
  lemma CarriageReturnKept()
    ensures RemoveWhiteSpaces("a \t\r\nb") == "a\rb"
  {
    VisibleOfExample();
  }

  /** The characters of "a \t\r\nb" that are not tab, space or newline. */
  lemma VisibleOfExample()
    ensures KeepVisible("a \t\r\nb") == "a\rb"
  {
    assert KeepVisible("b") == "b";
    assert KeepVisible("\nb") == "b";
    assert KeepVisible("\r\nb") == "\rb";
    assert KeepVisible("\t\r\nb") == "\rb";
    assert KeepVisible(" \t\r\nb") == "\rb";
  }
}
