/** Text primitives the coordinator relies on: lower-casing and Python's
    substring test `needle in haystack`. */
module Text {

  /** The ASCII capitals and, position for position, their small letters. */
  const Capitals: string := "ABCDEFGHIJKLMNOPQRSTUVWXYZ"
  const Smalls: string := "abcdefghijklmnopqrstuvwxyz"

  predicate IsUpper(c: char) {
    'A' <= c <= 'Z'
  }

  /** Lower-cases one character. Only the ASCII letters A-Z are mapped. */
  function LowerChar(c: char): char {
    if IsUpper(c) then (c as int + 32) as char else c
  }

  /** Lower-casing agrees with the alphabet tables: a capital becomes the
      small letter at the same position, anything else is kept, and no
      capital is left. */
  lemma LowerCharMatchesTable(c: char)
    ensures forall i :: 0 <= i < |Capitals| && c == Capitals[i] ==> LowerChar(c) == Smalls[i]
    ensures c !in Capitals ==> LowerChar(c) == c
    ensures LowerChar(c) !in Capitals
  {
    CapitalsAreConsecutive();
    SmallsAreConsecutive();
    if IsUpper(c) {
      assert c == Capitals[c as int - 'A' as int];
    }
  }

  lemma CapitalsAreConsecutive()
    ensures |Capitals| == 26
    ensures forall i :: 0 <= i < 26 ==> Capitals[i] as int == 'A' as int + i
  {
  }

  lemma SmallsAreConsecutive()
    ensures |Smalls| == 26
    ensures forall i :: 0 <= i < 26 ==> Smalls[i] as int == 'a' as int + i
  {
  }

  /** `s.lower()`, character by character. */
  function Lower(s: string): string {
    seq(|s|, i requires 0 <= i < |s| => LowerChar(s[i]))
  }

  /** `needle` starts at position `i` of `haystack`. */
  ghost predicate OccursAt(haystack: string, needle: string, i: int) {
    0 <= i && i + |needle| <= |haystack| && haystack[i..i + |needle|] == needle
  }

  /** Python's `needle in haystack`: the needle appears as a contiguous
      block somewhere in the haystack. */
  predicate Contains(haystack: string, needle: string)
    decreases |haystack|
  {
    needle <= haystack || (|haystack| > |needle| && Contains(haystack[1..], needle))
  }

  /** A needle holding a character the haystack lacks cannot occur in it. */
  lemma {:induction false} MissingCharExcludes(haystack: string, needle: string, c: char)
    requires c in needle && c !in haystack
    ensures !Contains(haystack, needle)
    decreases |haystack|
  {
    if |haystack| > |needle| {
      assert c !in haystack[1..] by {
        forall k | 0 <= k < |haystack| - 1 ensures haystack[1..][k] != c {
          assert haystack[1..][k] == haystack[k + 1];
        }
      }
      MissingCharExcludes(haystack[1..], needle, c);
    }
  }

  /** The recursive test agrees with the positional reading of `in`. */
  lemma {:induction false} ContainsIff(haystack: string, needle: string)
    ensures Contains(haystack, needle) <==> exists i :: OccursAt(haystack, needle, i)
    decreases |haystack|
  {
    if needle <= haystack {
      assert OccursAt(haystack, needle, 0);
    } else if |haystack| > |needle| {
      var tail := haystack[1..];
      ContainsIff(tail, needle);
      if Contains(tail, needle) {
        var i :| OccursAt(tail, needle, i);
        assert haystack[i + 1..i + 1 + |needle|] == tail[i..i + |needle|];
        assert OccursAt(haystack, needle, i + 1);
      }
      if i :| OccursAt(haystack, needle, i) {
        assert i != 0;
        assert tail[i - 1..i - 1 + |needle|] == haystack[i..i + |needle|];
        assert OccursAt(tail, needle, i - 1);
      }
    } else {
      if i :| OccursAt(haystack, needle, i) {
        assert false;
      }
    }
  }

  /** Witnesses `needle` at position `i` of `text`. */
  lemma FoundAt(text: string, needle: string, i: nat)
    requires i + |needle| <= |text| && text[i..][..|needle|] == needle
    ensures Contains(text, needle)
  {
    ContainsIff(text, needle);
    assert OccursAt(text, needle, i);
  }

  /** A text holds whatever follows one of its prefixes. */
  lemma ContainsAfterPrefix(text: string, left: string, needle: string)
    requires left + needle <= text
    ensures Contains(text, needle)
  {
    assert text[|left|..][..|needle|] == needle;
    FoundAt(text, needle, |left|);
  }

  /** Containment is transitive: a text holding `middle` holds every
      substring of `middle`. */
  lemma {:induction false} ContainsTransitive(haystack: string, middle: string, needle: string)
    requires Contains(haystack, middle) && Contains(middle, needle)
    ensures Contains(haystack, needle)
  {
    ContainsIff(haystack, middle);
    ContainsIff(middle, needle);
    ContainsIff(haystack, needle);
    var i :| OccursAt(haystack, middle, i);
    var j :| OccursAt(middle, needle, j);
    forall k | 0 <= k < |needle| ensures haystack[i + j + k] == needle[k] {
      assert needle[k] == middle[j + k] == haystack[i..i + |middle|][j + k];
    }
    assert haystack[i + j..i + j + |needle|] == needle;
    assert OccursAt(haystack, needle, i + j);
  }

  /** A text keeps every substring when more text is added on either side. */
  lemma ContainsInConcat(left: string, right: string, needle: string)
    ensures Contains(left, needle) ==> Contains(left + right, needle)
    ensures Contains(right, needle) ==> Contains(left + right, needle)
  {
    var whole := left + right;
    ContainsIff(left, needle);
    ContainsIff(right, needle);
    ContainsIff(whole, needle);
    if Contains(left, needle) {
      var i :| OccursAt(left, needle, i);
      assert whole[i..i + |needle|] == left[i..i + |needle|];
      assert OccursAt(whole, needle, i);
    }
    if Contains(right, needle) {
      var i :| OccursAt(right, needle, i);
      assert whole[|left| + i..|left| + i + |needle|] == right[i..i + |needle|];
      assert OccursAt(whole, needle, |left| + i);
    }
  }

  /** Lower-casing is idempotent. */
  lemma LowerIdempotent(s: string)
    ensures Lower(Lower(s)) == Lower(s)
  {
  }

  /** Text without capital letters is its own lower-case form. */
  lemma LowerOfLowercase(s: string)
    requires forall c :: c in s ==> !IsUpper(c)
    ensures Lower(s) == s
  {
    assert forall i :: 0 <= i < |s| ==> s[i] in s;
  }

  /** Lower-casing commutes with slicing. */
  lemma LowerSlice(s: string, i: nat, j: nat)
    requires i <= j <= |s|
    ensures Lower(s)[i..j] == Lower(s[i..j])
  {
  }

  /** A small letter is absent from the lower-cased text when neither it nor
      its capital occurs in the original. */
  lemma LowerAvoids(s: string, c: char)
    requires 'a' <= c <= 'z'
    requires c !in s && (c as int - 32) as char !in s
    ensures c !in Lower(s)
  {
  }

  /** Lower-casing distributes over concatenation. */
  lemma LowerConcat(a: string, b: string)
    ensures Lower(a + b) == Lower(a) + Lower(b)
  {
  }
}
