/** File extensions for downloaded images: `postfix` and the `str.split`
    it relies on. */
module Media {
  import opened Sequences

  /** Python's `s.split(sep)` for a one-character separator: the pieces
      between separators, including empty ones; never an empty list. */
  function Split(s: string, sep: char): (parts: seq<string>)
    ensures |parts| >= 1
  {
    if s == [] then [[]]
    else
      var rest := Split(s[1..], sep);
      if s[0] == sep then [[]] + rest else [[s[0]] + rest[0]] + rest[1..]
  }

  /** Python's `sep.join(parts)`. */
  function Join(parts: seq<string>, sep: char): string
    requires |parts| >= 1
  {
    if |parts| == 1 then parts[0] else parts[0] + [sep] + Join(parts[1..], sep)
  }

  function Last<T>(xs: seq<T>): T
    requires |xs| >= 1
  {
    xs[|xs| - 1]
  }

  /** Joining the pieces of a split with the same separator gives back the
      original string. */
  lemma {:induction false} JoinSplit(s: string, sep: char)
    ensures Join(Split(s, sep), sep) == s
  {
    if s != [] {
      var rest := Split(s[1..], sep);
      JoinSplit(s[1..], sep);
      if s[0] == sep {
        assert Split(s, sep)[1..] == rest;
      } else {
        var parts := Split(s, sep);
        assert parts[1..] == rest[1..];
        if |rest| > 1 {
          assert Join(rest, sep) == rest[0] + [sep] + Join(rest[1..], sep);
        }
      }
    }
  }

  /** No piece of a split contains the separator. */
  lemma {:induction false} SplitPiecesLackSeparator(s: string, sep: char)
    ensures forall i :: 0 <= i < |Split(s, sep)| ==> sep !in Split(s, sep)[i]
  {
    if s != [] {
      var rest := Split(s[1..], sep);
      SplitPiecesLackSeparator(s[1..], sep);
      var parts := Split(s, sep);
      if s[0] == sep {
        assert forall i :: 1 <= i < |parts| ==> parts[i] == rest[i - 1];
      } else {
        assert forall i :: 1 <= i < |parts| ==> parts[i] == rest[i];
      }
    }
  }

  /** `t` is the text of `s` after its last `sep`, or all of `s` when it has
      no `sep`: `t` ends `s`, holds no `sep`, and is all of `s` or follows a
      `sep`. */
  ghost predicate IsAfterLast(t: string, s: string, sep: char) {
    |t| <= |s| && (forall i :: 0 <= i < |t| ==> t[i] == s[|s| - |t| + i] != sep) && (|t| == |s| || s[|s| - |t| - 1] == sep)
  }

  /** The text after the last separator of `s[1..]` is also the text after
      the last separator of `s`, unless it is all of `s[1..]` and `s[0]` is
      not a separator. */
  lemma ExtendAfterLast(t: string, s: string, sep: char)
    requires |s| > 0 && IsAfterLast(t, s[1..], sep)
    requires t != s[1..] || s[0] == sep
    ensures IsAfterLast(t, s, sep)
  {
    assert s[1..][|s| - 1 - |t|..] == s[|s| - |t|..];
  }

  /** A string that splits into more than one piece holds the separator. */
  lemma {:induction false} SplitInPiecesHasSeparator(s: string, sep: char)
    requires |Split(s, sep)| > 1
    ensures sep in s
  {
    if s[0] != sep {
      SplitInPiecesHasSeparator(s[1..], sep);
    }
  }

  /** A string that splits into one piece has no separator and is that piece. */
  lemma SplitInOnePiece(s: string, sep: char)
    requires |Split(s, sep)| == 1
    ensures Split(s, sep)[0] == s && sep !in s
  {
    JoinSplit(s, sep);
    SplitPiecesLackSeparator(s, sep);
  }

  /** When `s` has more pieces than its first character alone would start,
      its last piece is that of `s[1..]`, and still the text after the last
      separator. */
  lemma LastPieceOfLongerSplit(s: string, sep: char)
    requires s != [] && (s[0] == sep || |Split(s[1..], sep)| > 1)
    requires IsAfterLast(Last(Split(s[1..], sep)), s[1..], sep)
    ensures IsAfterLast(Last(Split(s, sep)), s, sep)
  {
    var t := Last(Split(s[1..], sep));
    assert Last(Split(s, sep)) == t;
    if s[0] != sep {
      SplitInPiecesHasSeparator(s[1..], sep);
      assert t != s[1..];
    }
    ExtendAfterLast(t, s, sep);
  }

  /** `s.split(sep)[-1]` is the text after the last separator. */
  lemma {:induction false} LastPieceIsAfterLast(s: string, sep: char)
    ensures IsAfterLast(Last(Split(s, sep)), s, sep)
  {
    if s != [] {
      if s[0] != sep && |Split(s[1..], sep)| == 1 {
        SplitInOnePiece(s[1..], sep);
        assert Last(Split(s, sep)) == s;
      } else {
        LastPieceIsAfterLast(s[1..], sep);
        LastPieceOfLongerSplit(s, sep);
      }
    }
  }

  /** `postfix(media_type)`: "jpg" for "image/jpeg", and for any other
      media type the text after its last '/' (all of it when there is none). */
  function Postfix(mediaType: string): string {
    if mediaType == "image/jpeg" then "jpg" else Last(Split(mediaType, '/'))
  }

  /** The extension is "jpg" for "image/jpeg" and otherwise the text after the
      media type's last '/'. */
  lemma PostfixSpec(mediaType: string)
    ensures mediaType == "image/jpeg" ==> Postfix(mediaType) == "jpg"
    ensures mediaType != "image/jpeg" ==> IsAfterLast(Postfix(mediaType), mediaType, '/')
  {
    if mediaType != "image/jpeg" {
      LastPieceIsAfterLast(mediaType, '/');
    }
  }

  /** A dot. */
  predicate IsDot(c: char) { c == '.' }

  /** The file name `{id}.{postfix(media_type)}` an image is stored under.
      For a dot-free id (a uuid hex string), the text before the name's
      first dot is the id again. */
  function ImageName(id: string, mediaType: string): (name: string)
    ensures '.' !in id ==> BeforeFirst(IsDot, name) == id
  {
    if '.' !in id then
      BeforeFirstAtMatch(IsDot, id, '.', Postfix(mediaType));
      id + "." + Postfix(mediaType)
    else id + "." + Postfix(mediaType)
  }

  /** Two images with different dot-free ids (uuid hex strings) are stored
      under different names, whatever their media types: each name gives
      back its own id. */
  lemma DistinctIdsGiveDistinctNames(id1: string, mediaType1: string, id2: string, mediaType2: string)
    requires '.' !in id1 && '.' !in id2 && id1 != id2
    ensures ImageName(id1, mediaType1) != ImageName(id2, mediaType2)
  {
  }
}
