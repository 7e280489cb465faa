/**
 * Seed identifier classification and partition (modules/fileReader.js),
 * over the text of the seed file.
 */
module FileReader {
  import opened Common

  /** The kinds `determineIdType` returns. */
  datatype IdType = DOI | CorpusId | ArXivId | Unknown
  {
    /** The string the source uses for the kind. */
    function Name(): string
    {
      match this
      case DOI => "DOI"
      case CorpusId => "CorpusId"
      case ArXivId => "arXivId"
      case Unknown => "Unknown"
    }
  }

  /** An entry of `knownIdsWithType`: `{id, type}`. */
  datatype KnownId = KnownId(id: string, idType: IdType)

  /** `\d` in a JavaScript regular expression without the `u` flag. */
  predicate IsAsciiDigit(c: char)
  {
    '0' <= c <= '9'
  }

  /** `/^\d+$/` matches: a non-empty string of ASCII digits. */
  predicate AllDigits(s: string)
  {
    |s| > 0 && forall i :: 0 <= i < |s| ==> IsAsciiDigit(s[i])
  }

  /** `determineIdType(id)`: the first rule that matches wins. */
  function DetermineIdType(id: string): IdType
  {
    if StartsWith(id, "10.") then DOI
    else if AllDigits(id) then CorpusId
    else if StartsWith(id, "arXiv:") then ArXivId
    else Unknown
  }

  /** The characters `String.prototype.trim` removes. */
  predicate IsJsWhitespace(c: char)
  {
    c == '\t' || c == '\n' || c == '\U{000B}' || c == '\U{000C}' || c == '\r' || c == ' '
    || c == '\U{00A0}' || c == '\U{1680}' || ('\U{2000}' <= c <= '\U{200A}')
    || c == '\U{2028}' || c == '\U{2029}' || c == '\U{202F}' || c == '\U{205F}'
    || c == '\U{3000}' || c == '\U{FEFF}'
  }

  /** `line.trim() === ''`. */
  predicate IsBlank(line: string)
  {
    forall i :: 0 <= i < |line| ==> IsJsWhitespace(line[i])
  }

  /** `text.split('\n')`. */
  function SplitLines(text: string): (lines: seq<string>)
    ensures |lines| >= 1
    ensures forall i :: 0 <= i < |lines| ==> '\n' !in lines[i]
  {
    if text == [] then [""]
    else
      var rest := SplitLines(text[1..]);
      if text[0] == '\n' then [""] + rest else [[text[0]] + rest[0]] + rest[1..]
  }

  /** `lines.join('\n')`. */
  function JoinLines(lines: seq<string>): string
    requires |lines| >= 1
  {
    if |lines| == 1 then lines[0] else lines[0] + "\n" + JoinLines(lines[1..])
  }

  /** `lines.filter(id => id.trim() !== '')`: the ids, untrimmed. */
  function NonBlankLines(lines: seq<string>): (kept: seq<string>)
    ensures |kept| <= |lines|
    ensures forall i :: 0 <= i < |kept| ==> !IsBlank(kept[i])
    decreases |lines|
  {
    if lines == [] then []
    else
      var last := lines[|lines| - 1];
      NonBlankLines(lines[..|lines| - 1]) + if IsBlank(last) then [] else [last]
  }

  /** The ids of the seed text, in order. */
  function SeedIds(text: string): seq<string>
  {
    NonBlankLines(SplitLines(text))
  }

  /** The ids the `forEach` pass pushes to `unknownIds`. */
  function UnknownIds(ids: seq<string>): seq<string>
    decreases |ids|
  {
    if ids == [] then []
    else
      var item := ids[|ids| - 1];
      UnknownIds(ids[..|ids| - 1]) + if DetermineIdType(item) == Unknown then [item] else []
  }

  /** The entries the `forEach` pass pushes to `knownIdsWithType`. */
  function KnownIds(ids: seq<string>): seq<KnownId>
    decreases |ids|
  {
    if ids == [] then []
    else
      var item := ids[|ids| - 1];
      var idType := DetermineIdType(item);
      KnownIds(ids[..|ids| - 1]) + if idType == Unknown then [] else [KnownId(item, idType)]
  }

  /** The `id` fields of known entries. */
  function IdsOf(known: seq<KnownId>): seq<string>
  {
    seq(|known|, i requires 0 <= i < |known| => known[i].id)
  }

  /**
   * The body of `readPaperIds` once the file has been read into `text`:
   * split into lines, drop blank ones, then one pass that pushes each id to
   * `unknownIds` or, with its kind, to `knownIdsWithType`.
   */
  method ReadPaperIds(text: string) returns (unknownIds: seq<string>, knownIdsWithType: seq<KnownId>)
    ensures unknownIds == UnknownIds(SeedIds(text))
    ensures knownIdsWithType == KnownIds(SeedIds(text))
  {
    var ids := NonBlankLines(SplitLines(text));
    unknownIds, knownIdsWithType := [], [];
    for i := 0 to |ids|
      invariant unknownIds == UnknownIds(ids[..i])
      invariant knownIdsWithType == KnownIds(ids[..i])
    {
      var item := ids[i];
      assert ids[..i + 1][..i] == ids[..i];
      var idType := DetermineIdType(item);
      if idType == Unknown {
        unknownIds := unknownIds + [item];
      } else {
        knownIdsWithType := knownIdsWithType + [KnownId(item, idType)];
      }
    }
    assert ids[..|ids|] == ids;
  }

  // ---------------------------------------------------------------------
  // Properties
  // ---------------------------------------------------------------------

  /**
   * The rules never overlap (a digit string cannot start with `10.` or
   * `arXiv:`), so each kind is decided by its own rule alone, and every
   * string gets exactly one kind.
   */
  lemma ClassificationRulesAreDisjoint(id: string)
    ensures DetermineIdType(id) == DOI <==> StartsWith(id, "10.")
    ensures DetermineIdType(id) == CorpusId <==> AllDigits(id)
    ensures DetermineIdType(id) == ArXivId <==> StartsWith(id, "arXiv:")
    ensures DetermineIdType(id) == Unknown <==>
              !StartsWith(id, "10.") && !AllDigits(id) && !StartsWith(id, "arXiv:")
  {
    if StartsWith(id, "10.") {
      assert id[2] == "10."[2];
      assert !IsAsciiDigit(id[2]);
    }
    if StartsWith(id, "arXiv:") {
      assert id[0] == "arXiv:"[0];
      assert !IsAsciiDigit(id[0]) && id[0] != "10."[0];
    }
  }

  /** Joining the split lines gives back the text. */
  lemma {:induction false} JoinSplitLines(text: string)
    ensures JoinLines(SplitLines(text)) == text
  {
    if text != [] {
      JoinSplitLines(text[1..]);
      var rest := SplitLines(text[1..]);
      if text[0] != '\n' {
        if |rest| == 1 {
          assert text == [text[0]] + rest[0];
        } else {
          assert [[text[0]] + rest[0]] + rest[1..] == [[text[0]] + rest[0]] + rest[1..];
          assert JoinLines(rest) == rest[0] + "\n" + JoinLines(rest[1..]);
          assert text == [text[0]] + text[1..];
        }
      }
    }
  }

  /** Splitting a text that starts with a line free of `\n`. */
  lemma {:induction false} SplitLinesPrefix(line: string, tail: string)
    requires '\n' !in line
    ensures SplitLines(line + tail) == [line + SplitLines(tail)[0]] + SplitLines(tail)[1..]
  {
    if line == [] {
      assert line + tail == tail;
      assert [] + SplitLines(tail)[0] == SplitLines(tail)[0];
      assert SplitLines(tail) == [SplitLines(tail)[0]] + SplitLines(tail)[1..];
    } else {
      assert (line + tail)[0] == line[0] && (line + tail)[1..] == line[1..] + tail;
      assert line[0] != '\n' && '\n' !in line[1..];
      SplitLinesPrefix(line[1..], tail);
      assert [line[0]] + (line[1..] + SplitLines(tail)[0]) == line + SplitLines(tail)[0];
    }
  }

  /** Splitting joined lines that contain no `\n` gives back the lines. */
  lemma {:induction false} SplitJoinLines(lines: seq<string>)
    requires |lines| >= 1
    requires forall i :: 0 <= i < |lines| ==> '\n' !in lines[i]
    ensures SplitLines(JoinLines(lines)) == lines
  {
    if |lines| == 1 {
      SplitLinesPrefix(lines[0], "");
      assert lines[0] + "" == lines[0];
    } else {
      SplitJoinLines(lines[1..]);
      SplitLinesPrefix(lines[0], "\n" + JoinLines(lines[1..]));
      assert lines[0] + "\n" + JoinLines(lines[1..]) == lines[0] + ("\n" + JoinLines(lines[1..]));
      assert ("\n" + JoinLines(lines[1..]))[0] == '\n';
      assert ("\n" + JoinLines(lines[1..]))[1..] == JoinLines(lines[1..]);
      assert SplitLines("\n" + JoinLines(lines[1..])) == [""] + lines[1..];
      assert lines[0] + "" == lines[0];
      assert lines == [lines[0]] + lines[1..];
    }
  }

  /** The kept ids are exactly the non-blank lines, untrimmed and in order. */
  lemma {:induction false} NonBlankLinesKeepsExactlyNonBlank(lines: seq<string>)
    ensures Subsequence(NonBlankLines(lines), lines)
    ensures forall l :: l in NonBlankLines(lines) <==> l in lines && !IsBlank(l)
    decreases |lines|
  {
    if lines != [] {
      var prefix := lines[..|lines| - 1];
      var last := lines[|lines| - 1];
      NonBlankLinesKeepsExactlyNonBlank(prefix);
      assert lines == prefix + [last];
      if !IsBlank(last) {
        var kept := NonBlankLines(lines);
        assert kept[..|kept| - 1] == NonBlankLines(prefix);
      } else {
        assert NonBlankLines(lines) == NonBlankLines(prefix);
      }
    }
  }

  /** A single line is kept exactly when it is not blank. */
  lemma NonBlankLinesOfOne(line: string)
    ensures NonBlankLines([line]) == if IsBlank(line) then [] else [line]
  {
    assert [line][..0] == [];
  }

  /**
   * The filter works line by line: it distributes over concatenation, so
   * every non-blank line is kept as often as it occurs.
   */
  lemma {:induction false} NonBlankLinesAppend(a: seq<string>, b: seq<string>)
    ensures NonBlankLines(a + b) == NonBlankLines(a) + NonBlankLines(b)
    decreases |b|
  {
    if b == [] {
      assert a + b == a;
    } else {
      var front, last := b[..|b| - 1], b[|b| - 1];
      NonBlankLinesAppend(a, front);
      assert (a + b)[..|a + b| - 1] == a + front;
      var tail := if IsBlank(last) then [] else [last];
      ConcatAssociative(NonBlankLines(a), NonBlankLines(front), tail);
    }
  }

  /**
   * Every id lands in exactly one of the two lists: the lengths add up, the
   * unknown list holds exactly the ids classified `Unknown`, and the known
   * list holds exactly the other ids, each with its kind.
   */
  lemma {:induction false} PartitionIsExact(ids: seq<string>)
    ensures |UnknownIds(ids)| + |KnownIds(ids)| == |ids|
    ensures forall x :: x in UnknownIds(ids) <==> x in ids && DetermineIdType(x) == Unknown
    ensures forall k :: k in KnownIds(ids) <==>
              k.id in ids && k.idType == DetermineIdType(k.id) && k.idType != Unknown
    decreases |ids|
  {
    if ids != [] {
      var prefix := ids[..|ids| - 1];
      PartitionIsExact(prefix);
      assert ids == prefix + [ids[|ids| - 1]];
    }
  }

  /** Both lists keep the relative order of the ids. */
  lemma {:induction false} PartitionKeepsOrder(ids: seq<string>)
    ensures Subsequence(UnknownIds(ids), ids)
    ensures Subsequence(IdsOf(KnownIds(ids)), ids)
    decreases |ids|
  {
    if ids != [] {
      var prefix := ids[..|ids| - 1];
      var item := ids[|ids| - 1];
      PartitionKeepsOrder(prefix);
      if DetermineIdType(item) == Unknown {
        var u := UnknownIds(ids);
        assert u[..|u| - 1] == UnknownIds(prefix);
        assert IdsOf(KnownIds(ids)) == IdsOf(KnownIds(prefix));
      } else {
        var k := IdsOf(KnownIds(ids));
        assert k[..|k| - 1] == IdsOf(KnownIds(prefix));
        assert UnknownIds(ids) == UnknownIds(prefix);
      }
    }
  }

  /**
   * Lines are classified untrimmed: a corpus id on a line ending in `\r` (a
   * file with CRLF line ends) is kept but classified `Unknown`.
   */
  lemma CarriageReturnMakesCorpusIdUnknown(digits: string)
    requires AllDigits(digits)
    ensures DetermineIdType(digits) == CorpusId
    ensures SeedIds(digits + "\r\n") == [digits + "\r"]
    ensures DetermineIdType(digits + "\r") == Unknown
  {
    var line := digits + "\r";
    assert '\n' !in line by {
      forall i | 0 <= i < |line| ensures line[i] != '\n' {
        if i < |digits| { assert IsAsciiDigit(digits[i]); }
      }
    }
    assert !IsBlank(line) by { assert IsAsciiDigit(line[0]); }
    assert line + "\n" == digits + "\r\n";
    LineWithNewlineSplits(line);
    OneNonBlankLine(line);
    assert !IsAsciiDigit(line[|line| - 1]);
    assert line[0] == digits[0] && IsAsciiDigit(digits[0]);
    if |line| >= 3 {
      if |digits| > 2 {
        assert line[2] == digits[2] && IsAsciiDigit(digits[2]);
      } else {
        assert line[2] == '\r';
      }
      assert line[..3][2] == line[2];
    }
    if |line| >= 6 {
      assert line[..6][0] == line[0];
    }
  }

  /** A newline-free line followed by `\n` splits into the line and an empty one. */
  lemma LineWithNewlineSplits(line: string)
    requires '\n' !in line
    ensures SplitLines(line + "\n") == [line, ""]
  {
    SplitLinesPrefix(line, "\n");
    assert SplitLines("\n") == ["", ""];
    assert line + "" == line;
  }

  /** A non-blank line followed by an empty one leaves just that line. */
  lemma OneNonBlankLine(line: string)
    requires !IsBlank(line)
    ensures NonBlankLines([line, ""]) == [line]
  {
    assert [line, ""][..1] == [line];
    assert [line][..0] == [];
    assert IsBlank("");
    assert NonBlankLines([line]) == [line];
  }
}
