/**
  FileContainsStringConstraint: whether a file's contents, passed through an
  optional processor, contain every expected string (or, in exact mode, equal
  the first one). The file is given as its contents, or None when it does not
  exist; the processor is a function from a string to what it returns.
 */
module FileContainsString {
  import opened Wrappers

  /** What a user processor returns: a string, or any other PHP value. */
  datatype Processed = Text(s: string) | NotText

  type Processor = string -> Processed

  /** The outcome of `matches`: true, false, or the InvalidArgumentException it lets escape. */
  datatype Verdict = Holds | Fails | InvalidProcessor

  /**
    `processString`: the processor's result when there is one, the string
    itself otherwise; None stands for the exception thrown when the result
    is not a string.
   */
  function ProcessString(processor: Option<Processor>, s: string): (r: Option<string>)
    ensures processor.None? ==> r == Some(s)
    ensures processor.Some? ==> (r.Some? <==> processor.value(s).Text?)
    ensures r.Some? && processor.Some? ==> r.value == processor.value(s).s
  {
    match processor
    case None => Some(s)
    case Some(f) =>
      match f(s)
      case Text(t) => Some(t)
      case NotText => None
  }

  /**
    The processed expected strings, in order, or None when the processor
    fails on any of them (the map over the collection stops at the throw).
   */
  function ProcessAll(processor: Option<Processor>, strings: seq<string>): (r: Option<seq<string>>)
    ensures r.Some? <==> forall i :: 0 <= i < |strings| ==> ProcessString(processor, strings[i]).Some?
    ensures r.Some? ==>
      |r.value| == |strings| && forall i :: 0 <= i < |strings| ==> r.value[i] == ProcessString(processor, strings[i]).value
  {
    if strings == [] then Some([])
    else
      match ProcessString(processor, strings[0])
      case None => None
      case Some(head) =>
        match ProcessAll(processor, strings[1..])
        case None => None
        case Some(tail) => Some([head] + tail)
  }

  /**
    `strpos($haystack, $needle) !== false`: the needle occurs at some offset
    (the empty one at 0). A needle longer than the haystack never occurs;
    every string occurs in itself.
   */
  predicate Occurs(needle: string, haystack: string): (r: bool)
    ensures r ==> |needle| <= |haystack|
    ensures needle == haystack ==> r
  {
    assert needle == haystack ==> OccursAt(needle, haystack, 0);
    exists k :: 0 <= k <= |haystack| - |needle| && OccursAt(needle, haystack, k)
  }

  predicate OccursAt(needle: string, haystack: string, k: int) {
    0 <= k <= |haystack| - |needle| && haystack[k..k + |needle|] == needle
  }

  /** The strings that do not occur in `contents`, in their original order: the collection filter. */
  function Missing(contents: string, strings: seq<string>): (r: seq<string>)
    ensures |r| <= |strings|
  {
    if strings == [] then []
    else if Occurs(strings[0], contents) then Missing(contents, strings[1..])
    else [strings[0]] + Missing(contents, strings[1..])
  }

  /** `collect($string)` for the first processed string: empty when there is none. */
  function FirstOnly(strings: seq<string>): (r: seq<string>)
    ensures |r| <= 1
    ensures strings != [] ==> r == [strings[0]]
  {
    if strings == [] then [] else [strings[0]]
  }

  /**
    The verdict of `matches` for the given file contents (None: no such
    file) and expected strings: the processor runs on the contents and then
    on every string; exact mode compares the first processed string with
    the processed contents, contains mode looks for every processed string
    in them.
   */
  function Check(exactMatch: bool, processor: Option<Processor>, contents: Option<string>, other: seq<string>): (r: Verdict)
    ensures contents.None? ==> r == Fails
    ensures r == Holds ==>
      contents.Some? && ProcessString(processor, contents.value).Some? && ProcessAll(processor, other).Some?
    ensures exactMatch && r == Holds ==> |other| > 0
  {
    if contents.None? then Fails
    else
      var text := ProcessString(processor, contents.value);
      var strings := ProcessAll(processor, other);
      if text.None? || strings.None? then InvalidProcessor
      else if exactMatch then
        if strings.value != [] && strings.value[0] == text.value then Holds else Fails
      else if Missing(text.value, strings.value) == [] then Holds
      else Fails
  }

  class FileContainsStringConstraint {
    const exactMatch: bool
    const processor: Option<Processor>
    var fileExists: bool
    var missingStrings: seq<string>

    constructor(exactMatch: bool, processor: Option<Processor>)
      ensures this.exactMatch == exactMatch && this.processor == processor
    {
      this.exactMatch := exactMatch;
      this.processor := processor;
    }

    /**
      `matches`: fails when the file does not exist; otherwise processes the
      contents and then every expected string, and compares in exact or in
      contains mode.
     */
    method Matches(contents: Option<string>, other: seq<string>) returns (r: Verdict)
      modifies this
      ensures r == Check(exactMatch, processor, contents, other)
      ensures fileExists == contents.Some?
      ensures contents.Some? ==>
        var text, strings := ProcessString(processor, contents.value), ProcessAll(processor, other);
        if text.None? || strings.None? then missingStrings == old(missingStrings)
        else if exactMatch then
          missingStrings == (if r == Holds then old(missingStrings) else FirstOnly(strings.value))
        else missingStrings == Missing(text.value, strings.value)
      ensures contents.None? ==> missingStrings == old(missingStrings)
    {
      fileExists := contents.Some?;
      if !fileExists {
        return Fails;
      }
      var text := ProcessString(processor, contents.value);
      if text.None? {
        return InvalidProcessor;
      }
      var strings := ProcessAll(processor, other);
      if strings.None? {
        return InvalidProcessor;
      }
      if exactMatch {
        var ok := MatchExactly(text.value, strings.value);
        return if ok then Holds else Fails;
      }
      missingStrings := Missing(text.value, strings.value);
      return if missingStrings == [] then Holds else Fails;
    }

    /**
      `matchExactly`: only the first processed string is compared, and it
      must be the processed contents exactly; when it is not, it becomes
      the one missing string.
     */
    method MatchExactly(fileContents: string, processedStrings: seq<string>) returns (ok: bool)
      modifies this
      ensures ok <==> processedStrings != [] && processedStrings[0] == fileContents
      ensures fileExists == old(fileExists)
      ensures missingStrings == (if ok then old(missingStrings) else FirstOnly(processedStrings))
    {
      if processedStrings == [] || fileContents != processedStrings[0] {
        missingStrings := FirstOnly(processedStrings);
        return false;
      }
      return true;
    }
  }
}
