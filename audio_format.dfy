/**
 * The audio-format check of the clone form: the format of an uploaded file is
 * `file.name.split('.').pop()?.toLowerCase()`, and only six formats are accepted.
 *
 * `Split` and `Join` model JavaScript's `String.prototype.split` and
 * `Array.prototype.join` for a one-character separator, `Last` models `pop()`
 * on the (never empty) result of `split`, and `AfterLast` is an independent
 * definition of "the text after the last separator" that the split/pop
 * pipeline is proved to agree with.
 */
module AudioFormat {

  /** The formats the clone form accepts (VoiceSelect.tsx line 44). */
  const SupportedFormats: seq<string> := ["wav", "mp3", "ogg", "m4a", "aac", "pcm"]

  predicate IsSupported(format: string)
  {
    format in SupportedFormats
  }

  /** `parts.join(sep)`. */
  function Join(parts: seq<string>, sep: char): string
    requires |parts| >= 1
  {
    if |parts| == 1 then parts[0] else parts[0] + [sep] + Join(parts[1..], sep)
  }

  /**
   * `s.split(sep)`: the maximal pieces between separators, empty pieces
   * included, so that joining them again gives back `s`.
   */
  function Split(s: string, sep: char): (parts: seq<string>)
    ensures |parts| >= 1
    ensures forall i :: 0 <= i < |parts| ==> sep !in parts[i]
    ensures Join(parts, sep) == s
  {
    if s == [] then [[]]
    else
      var rest := Split(s[1..], sep);
      if s[0] == sep then
        assert ([[]] + rest)[1..] == rest;
        [[]] + rest
      else
        var parts := [[s[0]] + rest[0]] + rest[1..];
        assert parts[1..] == rest[1..];
        assert |rest| > 1 ==> Join(rest, sep) == rest[0] + [sep] + Join(rest[1..], sep);
        assert s == [s[0]] + s[1..];
        parts
  }

  /** Joining a sequence with one more piece appends the separator and that piece. */
  lemma {:induction false} JoinSnoc(parts: seq<string>, x: string, sep: char)
    requires |parts| >= 1
    ensures Join(parts + [x], sep) == Join(parts, sep) + [sep] + x
    decreases |parts|
  {
    if |parts| == 1 {
      assert (parts + [x])[1..] == [x];
    } else {
      assert (parts + [x])[1..] == parts[1..] + [x];
      JoinSnoc(parts[1..], x, sep);
    }
  }

  /** `Split` undoes `Join` whenever no piece contains the separator. */
  lemma {:induction false} SplitJoin(parts: seq<string>, sep: char)
    requires |parts| >= 1
    requires forall i :: 0 <= i < |parts| ==> sep !in parts[i]
    ensures Split(Join(parts, sep), sep) == parts
    decreases |Join(parts, sep)|
  {
    var s := Join(parts, sep);
    if parts[0] == [] {
      if |parts| > 1 {
        var tail := Join(parts[1..], sep);
        assert s == [sep] + tail;
        assert s[1..] == tail;
        SplitJoin(parts[1..], sep);
        assert parts == [[]] + parts[1..];
      }
    } else {
      var c := parts[0][0];
      var shorter := [parts[0][1..]] + parts[1..];
      assert shorter[1..] == parts[1..];
      assert sep !in shorter[0];
      assert forall i :: 0 <= i < |shorter| ==> sep !in shorter[i] by {
        forall i | 0 <= i < |shorter| ensures sep !in shorter[i] {
          if i > 0 { assert shorter[i] == parts[i]; }
        }
      }
      assert parts[0] == [c] + parts[0][1..];
      assert s == [c] + Join(shorter, sep);
      assert s[1..] == Join(shorter, sep);
      assert c != sep by { assert c in parts[0]; }
      SplitJoin(shorter, sep);
      assert parts == [[c] + shorter[0]] + shorter[1..];
    }
  }

  /** `pop()`: the last element. */
  function Last(parts: seq<string>): string
    requires |parts| >= 1
  {
    parts[|parts| - 1]
  }

  /**
   * The text after the last occurrence of `sep` in `s`, or the whole of `s`
   * when `sep` does not occur, read from the end of `s`.
   */
  function AfterLast(s: string, sep: char): string
  {
    if s == [] then []
    else if s[|s| - 1] == sep then []
    else AfterLast(s[..|s| - 1], sep) + [s[|s| - 1]]
  }

  /**
   * `AfterLast` is a suffix of `s` free of `sep`, and is preceded by `sep`
   * unless it is all of `s`.
   */
  lemma {:induction false} AfterLastIsSuffix(s: string, sep: char)
    ensures var r := AfterLast(s, sep);
      |r| <= |s| && r == s[|s| - |r|..] && sep !in r &&
      (|r| < |s| ==> s[|s| - |r| - 1] == sep)
    decreases |s|
  {
    if s != [] && s[|s| - 1] != sep {
      var front := s[..|s| - 1];
      AfterLastIsSuffix(front, sep);
      var r0 := AfterLast(front, sep);
      assert front[|front| - |r0|..] + [s[|s| - 1]] == s[|s| - |r0| - 1..];
    }
  }

  /** The last piece of `split` is exactly the text after the last separator. */
  lemma LastOfSplit(s: string, sep: char)
    ensures Last(Split(s, sep)) == AfterLast(s, sep)
  {
    AfterLastIsSuffix(s, sep);
    var r := AfterLast(s, sep);
    if |r| == |s| {
      assert r == s;
      assert Join([s], sep) == s;
      SplitJoin([s], sep);
    } else {
      var front := s[..|s| - |r| - 1];
      assert s == front + [sep] + r;
      var pieces := Split(front, sep) + [r];
      JoinSnoc(Split(front, sep), r, sep);
      assert forall i :: 0 <= i < |pieces| ==> sep !in pieces[i] by {
        forall i | 0 <= i < |pieces| ensures sep !in pieces[i] {
          if i < |pieces| - 1 { assert pieces[i] == Split(front, sep)[i]; }
        }
      }
      SplitJoin(pieces, sep);
    }
  }

  /** A name without the separator is its own last piece. */
  lemma {:induction false} AfterLastWithoutSep(s: string, sep: char)
    requires sep !in s
    ensures AfterLast(s, sep) == s
    decreases |s|
  {
    if s != [] {
      var front := s[..|s| - 1];
      assert s == front + [s[|s| - 1]];
      assert s[|s| - 1] in s;
      AfterLastWithoutSep(front, sep);
    }
  }

  /** `toLowerCase()` on one character; only the ASCII letters A-Z change. */
  function LowerChar(c: char): char
  {
    if 'A' <= c <= 'Z' then (c as int + ('a' as int - 'A' as int)) as char else c
  }

  /** `toLowerCase()`: every character lowered, nothing upper-case left. */
  function Lower(s: string): (r: string)
    ensures |r| == |s|
    ensures forall i :: 0 <= i < |s| ==> r[i] == LowerChar(s[i])
    ensures forall i :: 0 <= i < |r| ==> !('A' <= r[i] <= 'Z')
  {
    if s == [] then [] else [LowerChar(s[0])] + Lower(s[1..])
  }

  /** The audio format of a file name (VoiceSelect.tsx line 43). */
  function FileFormat(name: string): string
  {
    Lower(Last(Split(name, '.')))
  }

  /**
   * The audio format is the text after the last '.' of the name, lower-cased;
   * for a name without '.' it is the whole name, lower-cased.
   */
  lemma FileFormatIsLoweredSuffix(name: string)
    ensures FileFormat(name) == Lower(AfterLast(name, '.'))
    ensures '.' !in name ==> FileFormat(name) == Lower(name)
  {
    LastOfSplit(name, '.');
    if '.' !in name {
      AfterLastWithoutSep(name, '.');
    }
  }

  /** Any split of `s` as `p + sep + x` with `x` free of `sep` finds the same suffix. */
  lemma {:induction false} AfterLastUnique(s: string, p: string, x: string, sep: char)
    requires s == p + [sep] + x && sep !in x
    ensures AfterLast(s, sep) == x
    decreases |x|
  {
    if x == [] {
      assert s[|s| - 1] == sep;
    } else {
      var c := x[|x| - 1];
      var front := x[..|x| - 1];
      assert s[..|s| - 1] == p + [sep] + front;
      assert s[|s| - 1] == c;
      assert c in x;
      AfterLastUnique(s[..|s| - 1], p, front, sep);
      assert x == front + [c];
    }
  }

  /** Lowering a name first does not change its format: the check ignores case. */
  lemma {:induction false} FormatIgnoresCase(name: string)
    ensures FileFormat(Lower(name)) == FileFormat(name)
  {
    FileFormatIsLoweredSuffix(name);
    FileFormatIsLoweredSuffix(Lower(name));
    LowerAfterLast(name, '.');
    LowerIdempotent(AfterLast(name, '.'));
  }

  lemma LowerIdempotent(s: string)
    ensures Lower(Lower(s)) == Lower(s)
  {
  }

  /** Lowering commutes with taking the text after the last '.'. */
  lemma {:induction false} LowerAfterLast(s: string, sep: char)
    requires !('A' <= sep <= 'Z') && !('a' <= sep <= 'z')
    ensures AfterLast(Lower(s), sep) == Lower(AfterLast(s, sep))
    decreases |s|
  {
    if s != [] {
      var last := s[|s| - 1];
      var front := s[..|s| - 1];
      assert s == front + [last];
      LowerSnoc(front, last);
      AfterLastSnoc(Lower(front), LowerChar(last), sep);
      AfterLastSnoc(front, last, sep);
      LowerCharIsSep(last, sep);
      if last != sep {
        LowerAfterLast(front, sep);
        LowerSnoc(AfterLast(front, sep), last);
      }
    }
  }

  /** One step of `AfterLast` at the end of the string. */
  lemma AfterLastSnoc(t: string, c: char, sep: char)
    ensures AfterLast(t + [c], sep) == if c == sep then [] else AfterLast(t, sep) + [c]
  {
    assert (t + [c])[..|t|] == t;
  }

  /** Lowering turns no other character into a separator that is not a letter. */
  lemma LowerCharIsSep(c: char, sep: char)
    requires !('A' <= sep <= 'Z') && !('a' <= sep <= 'z')
    ensures LowerChar(c) == sep <==> c == sep
  {
  }

  lemma LowerSnoc(s: string, c: char)
    ensures Lower(s + [c]) == Lower(s) + [LowerChar(c)]
  {
  }

  /** Whatever precedes the last '.', the format is the lower-cased text after it. */
  lemma FormatOfDottedName(stem: string, ext: string)
    requires '.' !in ext
    ensures FileFormat(stem + "." + ext) == Lower(ext)
  {
    var name := stem + "." + ext;
    FileFormatIsLoweredSuffix(name);
    AfterLastUnique(name, stem, ext, '.');
  }

  /** A name ending in `.flac`, such as `sample.flac`, has format `flac`. */
  lemma FlacFormat(stem: string)
    ensures FileFormat(stem + ".flac") == "flac"
  {
    assert stem + ".flac" == stem + "." + "flac";
    FormatOfDottedName(stem, "flac");
    var l := Lower("flac");
    assert l[0] == 'f' && l[1] == 'l' && l[2] == 'a' && l[3] == 'c';
  }

  /** A name ending in `.flac`, such as `sample.flac`, is rejected. */
  lemma FlacRejected(stem: string)
    ensures !IsSupported(FileFormat(stem + ".flac"))
  {
    FlacFormat(stem);
  }

  /** A name ending in `.WAV`, such as `sample.WAV`, is accepted as `wav`. */
  lemma UpperCaseWavAccepted(stem: string)
    ensures FileFormat(stem + ".WAV") == "wav"
    ensures IsSupported(FileFormat(stem + ".WAV"))
  {
    assert stem + ".WAV" == stem + "." + "WAV";
    FormatOfDottedName(stem, "WAV");
    var l := Lower("WAV");
    assert l[0] == 'w' && l[1] == 'a' && l[2] == 'v';
    assert l == "wav";
  }

  /** A name with no '.' is its own format: it is accepted iff, lower-cased, it is a supported format. */
  lemma BareNameAccepted(name: string)
    requires '.' !in name && IsSupported(Lower(name))
    ensures IsSupported(FileFormat(name))
  {
    FileFormatIsLoweredSuffix(name);
  }

  /** `WAV` satisfies the rule above, so a file literally named `WAV` is accepted. */
  lemma WavIsBareSupportedName()
    ensures '.' !in "WAV" && IsSupported(Lower("WAV"))
  {
    var l := Lower("WAV");
    assert l[0] == 'w' && l[1] == 'a' && l[2] == 'v';
    assert l == "wav";
  }
}
