/** The small string computations of the admin panel: `String.prototype.split`
    with a one-character separator, the line count shown under the editor, the
    commit message built from a path, the trailing-newline normalisation done
    before a write, `String.prototype.trim` and `slice(0, n)`. */
module Text {

  /** Number of occurrences of `c` in `s`. */
  function Count(s: string, c: char): nat
  {
    if s == [] then 0 else (if s[0] == c then 1 else 0) + Count(s[1..], c)
  }

  /** `s.split(sep)` for a one-character separator: the maximal runs of
      characters between separators, including the empty runs at either end. */
  function Split(s: string, sep: char): (pieces: seq<string>)
    ensures |pieces| >= 1
    ensures forall i :: 0 <= i < |pieces| ==> sep !in pieces[i]
  {
    if s == [] then [[]]
    else
      var rest := Split(s[1..], sep);
      if s[0] == sep then [[]] + rest
      else [[s[0]] + rest[0]] + rest[1..]
  }

  /** `pieces.join(sep)`. */
  function Join(pieces: seq<string>, sep: char): string
    requires |pieces| >= 1
  {
    if |pieces| == 1 then pieces[0] else pieces[0] + [sep] + Join(pieces[1..], sep)
  }

  /** Splitting yields one more piece than there are separators. */
  lemma {:induction false} SplitLength(s: string, sep: char)
    ensures |Split(s, sep)| == Count(s, sep) + 1
  {
    if s != [] {
      SplitLength(s[1..], sep);
    }
  }

  /** Joining the pieces back with the separator gives the original string. */
  lemma {:induction false} JoinSplit(s: string, sep: char)
    ensures Join(Split(s, sep), sep) == s
  {
    if s != [] {
      var rest := Split(s[1..], sep);
      JoinSplit(s[1..], sep);
      if s[0] == sep {
        assert Split(s, sep)[1..] == rest;
        assert s == [sep] + s[1..];
      } else {
        var pieces := Split(s, sep);
        if |rest| == 1 {
          assert s == [s[0]] + s[1..];
        } else {
          assert pieces[1..] == rest[1..];
          assert Join(rest, sep) == rest[0] + [sep] + Join(rest[1..], sep);
          assert s == [s[0]] + s[1..];
        }
      }
    }
  }

  /** The last piece of a split is the longest separator-free suffix: it is a
      suffix of `s`, and it is either all of `s` or preceded by a separator. */
  lemma {:induction false} SplitLast(s: string, sep: char)
    ensures var pieces := Split(s, sep);
            var last := pieces[|pieces| - 1];
            && |last| <= |s|
            && last == s[|s| - |last|..]
            && (|pieces| == 1 <==> |last| == |s|)
            && (|last| < |s| ==> s[|s| - |last| - 1] == sep)
  {
    if s != [] {
      SplitLast(s[1..], sep);
      var rest := Split(s[1..], sep);
      var pieces := Split(s, sep);
      if s[0] == sep {
        assert pieces[|pieces| - 1] == rest[|rest| - 1];
      } else if |rest| > 1 {
        assert pieces[|pieces| - 1] == rest[|rest| - 1];
      } else {
        assert pieces == [[s[0]] + rest[0]];
        assert s == [s[0]] + s[1..];
      }
    }
  }

  /** `content.split('\n').length`, the line count shown under the editor. */
  function LineCount(content: string): (n: nat)
    ensures n == Count(content, '\n') + 1
  {
    SplitLength(content, '\n');
    |Split(content, '\n')|
  }

  /** `path.split('/').pop()`: the file name at the end of a path. */
  function LastSegment(path: string): (name: string)
    ensures '/' !in name
    ensures |name| <= |path| && name == path[|path| - |name|..]
    ensures |name| == |path| || path[|path| - |name| - 1] == '/'
  {
    SplitLast(path, '/');
    var pieces := Split(path, '/');
    pieces[|pieces| - 1]
  }

  /** The commit message of a save: the path's file name between fixed words. */
  function CommitMessage(path: string): (message: string)
    ensures |message| >= 23 && message[..7] == "Update " && message[|message| - 16..] == " via admin panel"
    ensures var name := message[7..|message| - 16];
              && '/' !in name
              && |name| <= |path| && name == path[|path| - |name|..]
              && (|name| == |path| || path[|path| - |name| - 1] == '/')
  {
    var name := LastSegment(path);
    var message := "Update " + name + " via admin panel";
    assert message[7..|message| - 16] == name;
    message
  }

  /** The text actually written: a newline is appended only when missing. */
  function WithTrailingNewline(content: string): (text: string)
    ensures |text| >= 1 && text[|text| - 1] == '\n'
    ensures content <= text && |text| <= |content| + 1
    ensures |content| > 0 && content[|content| - 1] == '\n' ==> text == content
  {
    if |content| > 0 && content[|content| - 1] == '\n' then content else content + "\n"
  }

  /** `s.slice(0, n)`: at most the first `n` characters. */
  function Take(s: string, n: nat): (prefix: string)
    ensures prefix <= s
    ensures |prefix| == if |s| < n then |s| else n
  {
    if |s| < n then s else s[..n]
  }

  /** White space and line terminators as `String.prototype.trim` removes
      them: the WhiteSpace and LineTerminator productions of ECMAScript. */
  predicate IsTrimmed(c: char)
  {
    // WhiteSpace: TAB, VT, FF, SP, NBSP, ZWNBSP and the space separators (Zs)
    || c == '\t' || c == '\U{B}' || c == '\U{C}' || c == ' ' || c == '\U{A0}'
    || c == '\U{FEFF}' || c == '\U{1680}' || ('\U{2000}' <= c <= '\U{200A}')
    || c == '\U{202F}' || c == '\U{205F}' || c == '\U{3000}'
    // LineTerminator: LF, CR, LS, PS
    || c == '\n' || c == '\r' || c == '\U{2028}' || c == '\U{2029}'
  }

  /** Number of leading characters `trim` removes. */
  function LeadingSpace(s: string): (n: nat)
    ensures n <= |s|
    ensures forall k :: 0 <= k < n ==> IsTrimmed(s[k])
    ensures n < |s| ==> !IsTrimmed(s[n])
  {
    if s == [] || !IsTrimmed(s[0]) then 0 else 1 + LeadingSpace(s[1..])
  }

  /** Number of trailing characters `trim` removes. */
  function TrailingSpace(s: string): (n: nat)
    ensures n <= |s|
    ensures forall k :: |s| - n <= k < |s| ==> IsTrimmed(s[k])
    ensures n < |s| ==> !IsTrimmed(s[|s| - n - 1])
  {
    if s == [] || !IsTrimmed(s[|s| - 1]) then 0 else 1 + TrailingSpace(s[..|s| - 1])
  }

  /** `s.trim()`: the middle of `s` with white space removed at both ends. */
  function Trim(s: string): (t: string)
    ensures LeadingSpace(s) + |t| <= |s|
    ensures t == s[LeadingSpace(s)..LeadingSpace(s) + |t|]
    ensures t == [] || (!IsTrimmed(t[0]) && !IsTrimmed(t[|t| - 1]))
    ensures forall k :: LeadingSpace(s) + |t| <= k < |s| ==> IsTrimmed(s[k])
  {
    var rest := s[LeadingSpace(s)..];
    rest[..|rest| - TrailingSpace(rest)]
  }
}
