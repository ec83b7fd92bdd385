/**
 * ASCII text operations used by the dashboard: case mapping, the punctuation
 * set of Python's `string.punctuation`, review cleaning and `" ".join`.
 * Characters outside ASCII are left as they are.
 */
module Text {

  predicate IsUpperAscii(c: char) { 'A' <= c <= 'Z' }

  predicate IsLowerAscii(c: char) { 'a' <= c <= 'z' }

  function ToLowerChar(c: char): char
  {
    if IsUpperAscii(c) then (c as int + 32) as char else c
  }

  function ToUpperChar(c: char): char
  {
    if IsLowerAscii(c) then (c as int - 32) as char else c
  }

  /** `str.lower` restricted to ASCII: maps A-Z to a-z element-wise. */
  function Lower(s: string): (r: string)
    ensures |r| == |s|
    ensures forall i :: 0 <= i < |s| ==> r[i] == ToLowerChar(s[i])
    ensures forall i :: 0 <= i < |r| ==> !IsUpperAscii(r[i])
    ensures forall i :: 0 <= i < |s| && !IsUpperAscii(s[i]) ==> r[i] == s[i]
  {
    seq(|s|, i requires 0 <= i < |s| => ToLowerChar(s[i]))
  }

  /** `str.upper` restricted to ASCII: maps a-z to A-Z element-wise. */
  function Upper(s: string): (r: string)
    ensures |r| == |s|
    ensures forall i :: 0 <= i < |s| ==> r[i] == ToUpperChar(s[i])
    ensures forall i :: 0 <= i < |r| ==> !IsLowerAscii(r[i])
    ensures forall i :: 0 <= i < |s| && !IsLowerAscii(s[i]) ==> r[i] == s[i]
  {
    seq(|s|, i requires 0 <= i < |s| => ToUpperChar(s[i]))
  }

  /** Lower-casing works character by character, so it distributes over concatenation. */
  lemma LowerAppend(a: string, b: string)
    ensures Lower(a + b) == Lower(a) + Lower(b)
  {
  }

  /** The 32 characters of Python's `string.punctuation`. */
  const Punctuation: string := "!\"#$%&'()*+,-./:;<=>?@[\\]^_`{|}~"

  /**
   * Punctuation as character ranges: printable ASCII, space excluded, that is
   * neither a letter nor a digit.
   */
  predicate IsPunctuation(c: char)
  {
    ('!' <= c <= '/') || (':' <= c <= '@') || ('[' <= c <= '`') || ('{' <= c <= '~')
  }

  /** The ranges are exactly the characters of `string.punctuation`. */
  lemma PunctuationRanges(c: char)
    ensures c in Punctuation <==> IsPunctuation(c)
  {
    if IsPunctuation(c) {
      var k := if c <= '/' then c as int - 33
               else if c <= '@' then c as int - 58 + 15
               else if c <= '`' then c as int - 91 + 22
               else c as int - 123 + 28;
      assert Punctuation[k] == c;
    }
  }

  /** Lower-casing neither creates nor removes punctuation. */
  lemma LowerCharKeepsPunctuation(c: char)
    ensures IsPunctuation(ToLowerChar(c)) <==> IsPunctuation(c)
  {
  }

  /** `str.translate` with a table that deletes every punctuation character. */
  function RemovePunctuation(s: string): (r: string)
  {
    if s == [] then []
    else (if IsPunctuation(s[0]) then [] else [s[0]]) + RemovePunctuation(s[1..])
  }

  /** Number of punctuation characters in `s`. */
  function PunctuationCount(s: string): nat
  {
    if s == [] then 0 else (if IsPunctuation(s[0]) then 1 else 0) + PunctuationCount(s[1..])
  }

  /** `clean_text`: lower-case, then delete punctuation. */
  function CleanText(s: string): string
  {
    RemovePunctuation(Lower(s))
  }

  /** True when `s` holds no punctuation and no upper-case ASCII letter. */
  predicate IsClean(s: string)
  {
    forall i :: 0 <= i < |s| ==> !IsPunctuation(s[i]) && !IsUpperAscii(s[i])
  }

  lemma {:induction false} RemovePunctuationSound(s: string)
    ensures forall i :: 0 <= i < |RemovePunctuation(s)| ==> !IsPunctuation(RemovePunctuation(s)[i])
    ensures forall i :: 0 <= i < |RemovePunctuation(s)| ==> RemovePunctuation(s)[i] in s
    ensures |RemovePunctuation(s)| == |s| - PunctuationCount(s)
  {
    if s != [] {
      RemovePunctuationSound(s[1..]);
      var head := if IsPunctuation(s[0]) then [] else [s[0]];
      var r := RemovePunctuation(s);
      assert r == head + RemovePunctuation(s[1..]);
      forall i | 0 <= i < |r| ensures r[i] in s {
        if i >= |head| {
          assert r[i] == RemovePunctuation(s[1..])[i - |head|];
          assert r[i] in s[1..];
        }
      }
    }
  }

  lemma {:induction false} RemovePunctuationOfClean(s: string)
    requires forall i :: 0 <= i < |s| ==> !IsPunctuation(s[i])
    ensures RemovePunctuation(s) == s
  {
    if s != [] {
      RemovePunctuationOfClean(s[1..]);
    }
  }

  /** Deleting punctuation distributes over concatenation. */
  lemma {:induction false} RemovePunctuationAppend(a: string, b: string)
    ensures RemovePunctuation(a + b) == RemovePunctuation(a) + RemovePunctuation(b)
  {
    if a == [] {
      assert a + b == b;
    } else {
      assert (a + b)[1..] == a[1..] + b;
      RemovePunctuationAppend(a[1..], b);
    }
  }

  /** The cleaned text holds no punctuation and no upper-case ASCII letter. */
  lemma CleanTextIsClean(s: string)
    ensures IsClean(CleanText(s))
  {
    var l := Lower(s);
    RemovePunctuationSound(l);
    var r := CleanText(s);
    forall i | 0 <= i < |r| ensures !IsUpperAscii(r[i]) {
      assert r[i] in l;
    }
  }

  /** Cleaning deletes exactly the punctuation characters of the input. */
  lemma {:induction false} CleanTextLength(s: string)
    ensures |CleanText(s)| == |s| - PunctuationCount(s)
    ensures |CleanText(s)| <= |s|
  {
    RemovePunctuationSound(Lower(s));
    LowerPreservesPunctuationCount(s);
  }

  lemma {:induction false} LowerPreservesPunctuationCount(s: string)
    ensures PunctuationCount(Lower(s)) == PunctuationCount(s)
  {
    if s != [] {
      LowerPreservesPunctuationCount(s[1..]);
      assert Lower(s)[1..] == Lower(s[1..]);
      LowerCharKeepsPunctuation(s[0]);
    }
  }

  /** Clean text is a fixed point of cleaning. */
  lemma CleanTextOfClean(s: string)
    requires IsClean(s)
    ensures CleanText(s) == s
  {
    assert Lower(s) == s;
    RemovePunctuationOfClean(s);
  }

  /** `clean_text` is idempotent. */
  lemma CleanTextIdempotent(s: string)
    ensures CleanText(CleanText(s)) == CleanText(s)
  {
    CleanTextIsClean(s);
    CleanTextOfClean(CleanText(s));
  }

  /** The order of the two steps of `clean_text` does not matter. */
  lemma {:induction false} CleanTextStepsCommute(s: string)
    ensures CleanText(s) == Lower(RemovePunctuation(s))
  {
    if s != [] {
      CleanTextStepsCommute(s[1..]);
      LowerCharKeepsPunctuation(s[0]);
      assert Lower(s)[1..] == Lower(s[1..]);
      var head := if IsPunctuation(s[0]) then [] else [s[0]];
      assert Lower(head + RemovePunctuation(s[1..])) == Lower(head) + Lower(RemovePunctuation(s[1..]));
    }
  }

  /** Cleaning works piecewise on a concatenation. */
  lemma CleanTextAppend(a: string, b: string)
    ensures CleanText(a + b) == CleanText(a) + CleanText(b)
  {
    LowerAppend(a, b);
    RemovePunctuationAppend(Lower(a), Lower(b));
  }

  /** Lower-casing "Great Product", character by character. */
  lemma LowerGreatProduct(w: string)
    requires w == "Great Product"
    ensures Lower(w) == "great product"
  {
    var lowered := Lower(w);
    assert lowered[0] == 'g' && lowered[1] == 'r' && lowered[2] == 'e' && lowered[3] == 'a';
    assert lowered[4] == 't' && lowered[5] == ' ' && lowered[6] == 'p' && lowered[7] == 'r';
    assert lowered[8] == 'o' && lowered[9] == 'd' && lowered[10] == 'u' && lowered[11] == 'c';
    assert lowered[12] == 't';
  }

  /** Cleaning drops the capitals and the final "!" of "Great Product!". */
  lemma CleanGreatProduct(s: string)
    requires s == "Great Product!"
    ensures CleanText(s) == "great product"
  {
    var words, mark := s[..13], s[13..];
    assert s == words + mark;
    CleanTextAppend(words, mark);
    LowerGreatProduct(words);
    var lowered := Lower(words);
    assert forall i :: 0 <= i < |lowered| ==> !IsPunctuation(lowered[i]);
    RemovePunctuationOfClean(lowered);
    var m := Lower(mark);
    assert |m| == 1 && IsPunctuation(m[0]) && m[1..] == [];
    assert RemovePunctuation(m) == [];
  }

  /** Cleaning only lower-cases "Loved it". */
  lemma CleanLovedIt(s: string)
    requires s == "Loved it"
    ensures CleanText(s) == "loved it"
  {
    var lowered := Lower(s);
    assert forall i :: 0 <= i < |lowered| ==> !IsPunctuation(lowered[i]);
    RemovePunctuationOfClean(lowered);
    assert lowered == "loved it";
  }

  /** Python's `sep.join(parts)`. */
  function Join(parts: seq<string>, sep: string): string
  {
    if |parts| == 0 then ""
    else if |parts| == 1 then parts[0]
    else parts[0] + sep + Join(parts[1..], sep)
  }

  function TotalLength(parts: seq<string>): nat
  {
    if parts == [] then 0 else |parts[0]| + TotalLength(parts[1..])
  }

  /** A join of k >= 1 parts is as long as the parts plus k - 1 separators. */
  lemma {:induction false} JoinLength(parts: seq<string>, sep: string)
    requires |parts| >= 1
    ensures |Join(parts, sep)| == TotalLength(parts) + (|parts| - 1) * |sep|
  {
    if |parts| > 1 {
      JoinLength(parts[1..], sep);
    } else {
      assert parts[1..] == [];
    }
  }

  /** Every character of a join comes from a part or from the separator. */
  lemma {:induction false} JoinCharacters(parts: seq<string>, sep: string, i: nat)
    requires i < |Join(parts, sep)|
    ensures Join(parts, sep)[i] in sep || exists k :: 0 <= k < |parts| && Join(parts, sep)[i] in parts[k]
  {
    if |parts| > 1 {
      var j := Join(parts, sep);
      if i < |parts[0]| {
        assert j[i] == parts[0][i];
      } else if i < |parts[0]| + |sep| {
        assert j[i] == sep[i - |parts[0]|];
      } else {
        var i' := i - |parts[0]| - |sep|;
        assert j[i] == Join(parts[1..], sep)[i'];
        JoinCharacters(parts[1..], sep, i');
        if !(j[i] in sep) {
          var k :| 0 <= k < |parts| - 1 && j[i] in parts[1..][k];
          assert j[i] in parts[k + 1];
        }
      }
    } else {
      assert Join(parts, sep)[i] in parts[0];
    }
  }
}
