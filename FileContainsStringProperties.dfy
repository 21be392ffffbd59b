/**
  What FileContainsStringConstraint promises: the missing strings are
  exactly the processed strings that do not occur, in their order; contains
  mode holds exactly when none is missing; exact mode holds exactly when the
  first processed string is the processed contents; and the checks the unit
  tests make.
 */
module FileContainsStringProperties {
  import opened Wrappers
  import opened FileContainsString

  // ---------------------------------------------------------------------------
  // Occurrence (strpos)

  /** PHP 8's strpos finds the empty string at offset 0 of any string. */
  lemma EmptyStringOccurs(haystack: string)
    ensures Occurs("", haystack)
  {
    assert OccursAt("", haystack, 0);
  }

  /** A one-character string occurs exactly when the character does. */
  lemma SingleCharacterOccurs(c: char, haystack: string)
    ensures Occurs([c], haystack) <==> c in haystack
  {
    if c in haystack {
      var k :| 0 <= k < |haystack| && haystack[k] == c;
      assert haystack[k..k + 1] == [c];
      assert OccursAt([c], haystack, k);
    }
    if Occurs([c], haystack) {
      var k :| 0 <= k <= |haystack| - 1 && OccursAt([c], haystack, k);
      assert haystack[k] == haystack[k..k + 1][0];
    }
  }

  /** A string occurs in any text that has it between two other pieces. */
  lemma OccursBetween(pre: string, needle: string, post: string)
    ensures Occurs(needle, pre + needle + post)
  {
    var h := pre + needle + post;
    assert h[|pre|..|pre| + |needle|] == needle;
    assert OccursAt(needle, h, |pre|);
  }

  // ---------------------------------------------------------------------------
  // The filter of missing strings

  /** A string is reported missing exactly when it is expected and does not occur. */
  lemma {:induction false} MissingMembers(contents: string, strings: seq<string>, s: string)
    ensures s in Missing(contents, strings) <==> s in strings && !Occurs(s, contents)
  {
    if strings != [] {
      MissingMembers(contents, strings[1..], s);
      assert strings == [strings[0]] + strings[1..];
    }
  }

  /** The filter keeps the original order: it works on each part of a concatenation separately. */
  lemma {:induction false} MissingAppend(contents: string, a: seq<string>, b: seq<string>)
    ensures Missing(contents, a + b) == Missing(contents, a) + Missing(contents, b)
  {
    if a == [] {
      assert a + b == b;
    } else {
      assert (a + b)[0] == a[0];
      assert (a + b)[1..] == a[1..] + b;
      MissingAppend(contents, a[1..], b);
    }
  }

  /** Nothing is missing exactly when every string occurs. */
  lemma {:induction false} NothingMissingIff(contents: string, strings: seq<string>)
    ensures Missing(contents, strings) == [] <==> forall i :: 0 <= i < |strings| ==> Occurs(strings[i], contents)
  {
    if strings != [] {
      NothingMissingIff(contents, strings[1..]);
      assert forall i :: 1 <= i < |strings| ==> strings[i] == strings[1..][i - 1];
    }
  }

  // ---------------------------------------------------------------------------
  // Processing

  /** Without a processor every string is compared as it is. */
  lemma {:induction false} NoProcessorKeepsStrings(strings: seq<string>)
    ensures ProcessAll(None, strings) == Some(strings)
  {
    if strings != [] {
      NoProcessorKeepsStrings(strings[1..]);
      assert strings == [strings[0]] + strings[1..];
    }
  }

  // ---------------------------------------------------------------------------
  // The verdict

  /**
    A missing file fails the match; otherwise the processor's exception
    escapes exactly when it returns something other than a string for the
    contents or for one of the expected strings.
   */
  lemma CheckFailures(exactMatch: bool, processor: Option<Processor>, contents: Option<string>, other: seq<string>)
    ensures contents.None? ==> Check(exactMatch, processor, contents, other) == Fails
    ensures Check(exactMatch, processor, contents, other) == InvalidProcessor <==>
      contents.Some? &&
      (ProcessString(processor, contents.value).None? ||
       exists i :: 0 <= i < |other| && ProcessString(processor, other[i]).None?)
  {
  }

  /** Contains mode holds exactly when every processed string occurs in the processed contents. */
  lemma ContainsModeIff(processor: Option<Processor>, contents: Option<string>, other: seq<string>)
    ensures Check(false, processor, contents, other) == Holds <==>
      contents.Some? && ProcessString(processor, contents.value).Some? &&
      (forall i :: 0 <= i < |other| ==> ProcessString(processor, other[i]).Some?) &&
      (forall i :: 0 <= i < |other| ==>
        Occurs(ProcessString(processor, other[i]).value, ProcessString(processor, contents.value).value))
  {
    if contents.Some? && ProcessString(processor, contents.value).Some? && ProcessAll(processor, other).Some? {
      NothingMissingIff(ProcessString(processor, contents.value).value, ProcessAll(processor, other).value);
    }
  }

  /**
    Exact mode holds exactly when there is a first expected string and,
    processed, it is the processed contents; the other strings are only
    processed, never compared.
   */
  lemma ExactModeIff(processor: Option<Processor>, contents: Option<string>, other: seq<string>)
    ensures Check(true, processor, contents, other) == Holds <==>
      contents.Some? && ProcessString(processor, contents.value).Some? &&
      (forall i :: 0 <= i < |other| ==> ProcessString(processor, other[i]).Some?) &&
      |other| > 0 && ProcessString(processor, other[0]) == ProcessString(processor, contents.value)
  {
  }

  // ---------------------------------------------------------------------------
  // The unit tests

  /**
    Without a processor, a line of the file is found whatever surrounds it,
    and a list of strings with one absent character among them fails on
    that string alone.
   */
  lemma ContainsTest(pre: string, post: string)
    requires '|' !in pre + "namespace My\\Namespace;" + post
    ensures var file := pre + "namespace My\\Namespace;" + post;
      && Check(false, None, Some(file), ["namespace My\\Namespace;"]) == Holds
      && Missing(file, ["|", "namespace My\\Namespace;"]) == ["|"]
      && Check(false, None, Some(file), ["|", "namespace My\\Namespace;"]) == Fails
  {
    var line := "namespace My\\Namespace;";
    var file := pre + line + post;
    NoProcessorKeepsStrings([line]);
    NoProcessorKeepsStrings(["|", line]);
    OccursBetween(pre, line, post);
    SingleCharacterOccurs('|', file);
    assert ["|", line][1..] == [line];
    assert [line][1..] == [];
  }

  /** A needle without a line break that occurs across a line break occurs in one of the two sides. */
  lemma OccursAcrossLineBreak(needle: string, a: string, b: string)
    requires '\n' !in needle
    ensures Occurs(needle, a + "\n" + b) ==> Occurs(needle, a) || Occurs(needle, b)
  {
    var h := a + "\n" + b;
    if Occurs(needle, h) {
      var k :| 0 <= k <= |h| - |needle| && OccursAt(needle, h, k);
      if k + |needle| <= |a| {
        assert h[k..k + |needle|] == a[k..k + |needle|];
        assert OccursAt(needle, a, k);
      } else if k > |a| {
        var m := k - |a| - 1;
        assert h[k..k + |needle|] == b[m..m + |needle|];
        assert OccursAt(needle, b, m);
      } else {
        LineBreakInside(needle, a, b, k);
      }
    }
  }

  /** An occurrence that starts before a line break and ends after it holds that line break. */
  lemma LineBreakInside(needle: string, a: string, b: string, k: int)
    requires OccursAt(needle, a + "\n" + b, k)
    requires k <= |a| < k + |needle|
    ensures '\n' in needle
  {
    var h := a + "\n" + b;
    assert h[k..k + |needle|][|a| - k] == h[|a|];
  }

  /** Every character of a needle that occurs is a character of the text. */
  lemma OccurrenceCharacters(needle: string, haystack: string, c: char)
    requires c in needle && Occurs(needle, haystack)
    ensures c in haystack
  {
    var k :| 0 <= k <= |haystack| - |needle| && OccursAt(needle, haystack, k);
    var i :| 0 <= i < |needle| && needle[i] == c;
    assert haystack[k..k + |needle|][i] == c;
  }

  /** A string that occurs in a text occurs in the text with anything put in front. */
  lemma OccursInSuffix(needle: string, pre: string, haystack: string)
    requires Occurs(needle, haystack)
    ensures Occurs(needle, pre + haystack)
  {
    var k :| 0 <= k <= |haystack| - |needle| && OccursAt(needle, haystack, k);
    assert (pre + haystack)[|pre| + k..|pre| + k + |needle|] == haystack[k..k + |needle|];
    assert OccursAt(needle, pre + haystack, |pre| + k);
  }

  /** A string that occurs in a text occurs in the text with anything put after it. */
  lemma OccursInPrefix(needle: string, haystack: string, post: string)
    requires Occurs(needle, haystack)
    ensures Occurs(needle, haystack + post)
  {
    var k :| 0 <= k <= |haystack| - |needle| && OccursAt(needle, haystack, k);
    assert (haystack + post)[k..k + |needle|] == haystack[k..k + |needle|];
    assert OccursAt(needle, haystack + post, k);
  }

  /** The sample file of the unit tests: its seven lines joined by line breaks. */
  const SampleFile: string :=
    "<?php" + "\n" + ("namespace My\\Namespace;" + "\n" + ("" + "\n" + ("class MyClass" + "\n" +
    ("{" + "\n" + ("\tuse FileAssertions;" + "\n" + "}")))))

  /** Four strings found at the head, the middle and the end of the sample file. */
  lemma SampleFileContainsAll()
    ensures Check(false, None, Some(SampleFile),
                  ["\n}", "namespace My\\Namespace;\n", "class MyClass", "FileAssert"]) == Holds
  {
    var ss := ["\n}", "namespace My\\Namespace;\n", "class MyClass", "FileAssert"];
    NoProcessorKeepsStrings(ss);
    SampleFileEndsWithBrace();
    SampleFileHasNamespaceLine();
    SampleFileHasClassLine();
    SampleFileHasTraitName();
    assert forall i :: 0 <= i < |ss| ==> Occurs(ss[i], SampleFile) by {
      assert ss[0] == "\n}" && ss[1] == "namespace My\\Namespace;\n";
      assert ss[2] == "class MyClass" && ss[3] == "FileAssert";
    }
    NothingMissingIff(SampleFile, ss);
  }

  lemma SampleFileEndsWithBrace()
    ensures Occurs("\n}", SampleFile)
  {
    var l0, l1, l2, l3, l4, l5, l6 := "<?php", "namespace My\\Namespace;", "", "class MyClass", "{", "\tuse FileAssertions;", "}";
    var r5 := l5 + "\n" + l6;
    var r4 := l4 + "\n" + r5;
    var r3 := l3 + "\n" + r4;
    var r2 := l2 + "\n" + r3;
    var r1 := l1 + "\n" + r2;
    assert r5[|l5|..|l5| + 2] == "\n}";
    assert OccursAt("\n}", r5, |l5|);
    OccursInSuffix("\n}", l4 + "\n", r5);
    OccursInSuffix("\n}", l3 + "\n", r4);
    OccursInSuffix("\n}", l2 + "\n", r3);
    OccursInSuffix("\n}", l1 + "\n", r2);
    OccursInSuffix("\n}", l0 + "\n", r1);
  }

  lemma SampleFileHasNamespaceLine()
    ensures Occurs("namespace My\\Namespace;\n", SampleFile)
  {
    var l0, l1, l2, l3, l4, l5, l6 := "<?php", "namespace My\\Namespace;", "", "class MyClass", "{", "\tuse FileAssertions;", "}";
    var r5 := l5 + "\n" + l6;
    var r4 := l4 + "\n" + r5;
    var r3 := l3 + "\n" + r4;
    var r2 := l2 + "\n" + r3;
    var r1 := l1 + "\n" + r2;
    var n := "namespace My\\Namespace;\n";
    assert n == l1 + "\n";
    OccursInPrefix(n, l1 + "\n", r2);
    OccursInSuffix(n, l0 + "\n", r1);
  }

  lemma SampleFileHasClassLine()
    ensures Occurs("class MyClass", SampleFile)
  {
    var l0, l1, l2, l3, l4, l5, l6 := "<?php", "namespace My\\Namespace;", "", "class MyClass", "{", "\tuse FileAssertions;", "}";
    var r5 := l5 + "\n" + l6;
    var r4 := l4 + "\n" + r5;
    var r3 := l3 + "\n" + r4;
    var r2 := l2 + "\n" + r3;
    var r1 := l1 + "\n" + r2;
    OccursInPrefix(l3, l3, "\n");
    OccursInPrefix(l3, l3 + "\n", r4);
    OccursInSuffix(l3, l2 + "\n", r3);
    OccursInSuffix(l3, l1 + "\n", r2);
    OccursInSuffix(l3, l0 + "\n", r1);
  }

  lemma SampleFileHasTraitName()
    ensures Occurs("FileAssert", SampleFile)
  {
    var l0, l1, l2, l3, l4, l5, l6 := "<?php", "namespace My\\Namespace;", "", "class MyClass", "{", "\tuse FileAssertions;", "}";
    var r5 := l5 + "\n" + l6;
    var r4 := l4 + "\n" + r5;
    var r3 := l3 + "\n" + r4;
    var r2 := l2 + "\n" + r3;
    var r1 := l1 + "\n" + r2;
    OccursBetween("\tuse ", "FileAssert", "ions;");
    assert "\tuse " + "FileAssert" + "ions;" == l5;
    OccursInPrefix("FileAssert", l5, "\n");
    OccursInPrefix("FileAssert", l5 + "\n", l6);
    OccursInSuffix("FileAssert", l4 + "\n", r5);
    OccursInSuffix("FileAssert", l3 + "\n", r4);
    OccursInSuffix("FileAssert", l2 + "\n", r3);
    OccursInSuffix("FileAssert", l1 + "\n", r2);
    OccursInSuffix("FileAssert", l0 + "\n", r1);
  }

  /**
    "class MyClass " with its trailing blank is not in the sample file: the
    class line ends at the line break, the only line holding a 'C' is
    shorter than the needle, and no needle crosses a line break.
   */
  lemma SampleFileLacksTrailingBlank()
    ensures !Occurs("class MyClass ", SampleFile)
    ensures Check(false, None, Some(SampleFile), ["class MyClass "]) == Fails
  {
    var n := "class MyClass ";
    NotInSampleLines(n);
    var l0, l1, l2, l3, l4, l5, l6 := "<?php", "namespace My\\Namespace;", "", "class MyClass", "{", "\tuse FileAssertions;", "}";
    var r5 := l5 + "\n" + l6;
    var r4 := l4 + "\n" + r5;
    var r3 := l3 + "\n" + r4;
    var r2 := l2 + "\n" + r3;
    var r1 := l1 + "\n" + r2;
    assert '\n' !in n;
    OccursAcrossLineBreak(n, l5, l6);
    OccursAcrossLineBreak(n, l4, r5);
    OccursAcrossLineBreak(n, l3, r4);
    OccursAcrossLineBreak(n, l2, r3);
    OccursAcrossLineBreak(n, l1, r2);
    OccursAcrossLineBreak(n, l0, r1);
    NoProcessorKeepsStrings([n]);
    assert [n][1..] == [];
  }

  /** "class MyClass " occurs in no single line of the sample file. */
  lemma NotInSampleLines(n: string)
    requires n == "class MyClass "
    ensures !Occurs(n, "<?php") && !Occurs(n, "") && !Occurs(n, "class MyClass") && !Occurs(n, "{") && !Occurs(n, "}")
    ensures !Occurs(n, "namespace My\\Namespace;") && !Occurs(n, "\tuse FileAssertions;")
  {
    assert n[8] == 'C';
    if Occurs(n, "namespace My\\Namespace;") {
      OccurrenceCharacters(n, "namespace My\\Namespace;", 'C');
    }
    if Occurs(n, "\tuse FileAssertions;") {
      OccurrenceCharacters(n, "\tuse FileAssertions;", 'C');
    }
  }

  /** Without a processor the contents must match to the last blank. */
  lemma ExactTest()
    ensures Check(true, None, Some("abc\tdef\nghi \t jkl"), ["abc\tdef\nghi \t jkl"]) == Holds
    ensures Check(true, None, Some("abc\tdef\nghi \t jkl"), ["abc\tdef\nghi \tjkl"]) == Fails
  {
    NoProcessorKeepsStrings(["abc\tdef\nghi \t jkl"]);
    NoProcessorKeepsStrings(["abc\tdef\nghi \tjkl"]);
    assert |"abc\tdef\nghi \tjkl"| != |"abc\tdef\nghi \t jkl"|;
  }
}
