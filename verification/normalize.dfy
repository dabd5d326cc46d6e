/** Canonical form of field names used to compare source keys with schema paths
    (`normalizeKey`: lower-case, then strip every character outside `[A-Za-z0-9]`). */
module KeyNormalizer {
  import opened Wrappers

  /** Characters that survive normalisation: lower-case ASCII letters and digits. */
  predicate IsNormChar(c: char)
  {
    'a' <= c <= 'z' || '0' <= c <= '9'
  }

  /** What one character becomes under `toLowerCase()` followed by the removal of
      `[\W_]`.  ASCII capitals become lower case; KELVIN SIGN lower-cases to `k` and
      LATIN CAPITAL I WITH DOT ABOVE to `i` plus a combining dot (which is stripped);
      every other character is, or lower-cases to, something outside `[A-Za-z0-9]`. */
  function NormChar(c: char): (r: Option<char>)
    ensures r.Some? ==> IsNormChar(r.value)
    ensures IsNormChar(c) ==> r == Some(c)
    ensures 'A' <= c <= 'Z' ==> r == Some((c as int + 32) as char)
    ensures r.None? <==> !('A' <= c <= 'Z' || IsNormChar(c) || c == '\U{212A}' || c == '\U{0130}')
  {
    if 'A' <= c <= 'Z' then Some((c as int + 32) as char)
    else if IsNormChar(c) then Some(c)
    else if c == '\U{212A}' then Some('k')
    else if c == '\U{0130}' then Some('i')
    else None
  }

  function NormCharSeq(c: char): seq<char>
  {
    match NormChar(c)
    case Some(d) => [d]
    case None => []
  }

  /** `normalizeKey(key)`: only lower-case letters and digits remain, the result is
      never longer than the key, and an already normal key is left unchanged. */
  function NormalizeKey(key: string): (r: string)
    ensures forall i :: 0 <= i < |r| ==> IsNormChar(r[i])
    ensures |r| <= |key|
    ensures (forall i :: 0 <= i < |key| ==> IsNormChar(key[i])) ==> r == key
    decreases |key|
  {
    if key == [] then []
    else
      var rest := NormalizeKey(key[1..]);
      assert forall i :: 0 <= i < |key| - 1 ==> key[1..][i] == key[i + 1];
      NormCharSeq(key[0]) + rest
  }

  /** A one-character key normalises to what its character becomes. */
  lemma NormalizeSingle(c: char)
    ensures NormalizeKey([c]) == NormCharSeq(c)
  {
    assert [c][1..] == [];
  }

  /** ASCII lower-casing, the part of `toLowerCase` that survives normalisation. */
  function LowerAscii(s: string): (r: string)
    ensures |r| == |s|
    ensures forall i :: 0 <= i < |r| ==> !('A' <= r[i] <= 'Z')
  {
    seq(|s|, i requires 0 <= i < |s| => if 'A' <= s[i] <= 'Z' then (s[i] as int + 32) as char else s[i])
  }

  /** Normalisation ignores ASCII case: a key and its lower-cased form compare equal. */
  lemma {:induction false} NormalizeCaseInsensitive(s: string)
    ensures NormalizeKey(LowerAscii(s)) == NormalizeKey(s)
    decreases |s|
  {
    if s != [] {
      var l := LowerAscii(s);
      assert l[1..] == LowerAscii(s[1..]);
      assert NormChar(l[0]) == NormChar(s[0]);
      NormalizeCaseInsensitive(s[1..]);
    }
  }

  /** Normalising twice is the same as normalising once. */
  lemma NormalizeIdempotent(key: string)
    ensures NormalizeKey(NormalizeKey(key)) == NormalizeKey(key)
  {
  }

  /** Normalisation works character by character, so it distributes over concatenation. */
  lemma {:induction false} NormalizeConcat(a: string, b: string)
    ensures NormalizeKey(a + b) == NormalizeKey(a) + NormalizeKey(b)
    decreases |a|
  {
    if a == [] {
      assert a + b == b;
    } else {
      assert (a + b)[1..] == a[1..] + b;
      NormalizeConcat(a[1..], b);
    }
  }

  /** An occurrence of `[]` starts at index `i` of `s`. */
  predicate BracketsAt(s: string, i: int)
  {
    0 <= i && i + 1 < |s| && s[i] == '[' && s[i + 1] == ']'
  }

  /** The first occurrence of `[]` in `s` starts at index `i`. */
  predicate FirstBracketsAt(s: string, i: int)
  {
    BracketsAt(s, i) && forall j :: 0 <= j < i ==> !BracketsAt(s, j)
  }

  /** `path.replace('[]', '')`: the first occurrence of `[]` is cut out and later ones
      stay; a path without `[]` is returned unchanged. */
  function RemoveFirstBrackets(s: string): (r: string)
    ensures (forall j :: 0 <= j < |s| ==> !BracketsAt(s, j)) ==> r == s
    ensures forall i :: FirstBracketsAt(s, i) ==> r == s[..i] + s[i + 2..]
    decreases |s|
  {
    if |s| < 2 then s
    else if s[0] == '[' && s[1] == ']' then
      assert BracketsAt(s, 0) && s[..0] + s[2..] == s[2..];
      s[2..]
    else
      var t := s[1..];
      var rt := RemoveFirstBrackets(t);
      RemoveFirstBracketsCons(s, rt);
      [s[0]] + rt
  }

  /** The removal commutes with a leading character that does not start `[]`. */
  lemma RemoveFirstBracketsCons(s: string, rt: string)
    requires |s| >= 2 && !BracketsAt(s, 0)
    requires (forall j :: 0 <= j < |s[1..]| ==> !BracketsAt(s[1..], j)) ==> rt == s[1..]
    requires forall i :: FirstBracketsAt(s[1..], i) ==> rt == s[1..][..i] + s[1..][i + 2..]
    ensures (forall j :: 0 <= j < |s| ==> !BracketsAt(s, j)) ==> [s[0]] + rt == s
    ensures forall i :: FirstBracketsAt(s, i) ==> [s[0]] + rt == s[..i] + s[i + 2..]
  {
    var t := s[1..];
    assert forall j :: BracketsAt(t, j) <==> BracketsAt(s, j + 1);
    if forall j :: 0 <= j < |s| ==> !BracketsAt(s, j) {
      assert forall j :: 0 <= j < |t| ==> !BracketsAt(t, j) by {
        forall j | 0 <= j < |t| ensures !BracketsAt(t, j) {
          assert !BracketsAt(s, j + 1);
        }
      }
      assert [s[0]] + t == s;
    }
    forall i | FirstBracketsAt(s, i)
      ensures [s[0]] + rt == s[..i] + s[i + 2..]
    {
      assert i >= 1;
      assert FirstBracketsAt(t, i - 1) by {
        forall j | 0 <= j < i - 1 ensures !BracketsAt(t, j) {
          assert !BracketsAt(s, j + 1);
        }
      }
      assert rt == t[..i - 1] + t[i + 1..];
      assert [s[0]] + t[..i - 1] == s[..i];
      assert t[i + 1..] == s[i + 2..];
    }
  }

  /** Removing `[]` before normalising changes nothing: both brackets are stripped anyway. */
  lemma {:induction false} BracketRemovalInvisible(s: string)
    ensures NormalizeKey(RemoveFirstBrackets(s)) == NormalizeKey(s)
    decreases |s|
  {
    if |s| >= 2 {
      if s[0] == '[' && s[1] == ']' {
        assert s == "[]" + s[2..];
        assert NormalizeKey("]") == [];
        assert NormalizeKey("[]") == [];
        NormalizeConcat("[]", s[2..]);
      } else {
        var t := s[1..];
        assert RemoveFirstBrackets(s) == [s[0]] + RemoveFirstBrackets(t);
        BracketRemovalInvisible(t);
        NormalizeConcat([s[0]], RemoveFirstBrackets(t));
        assert s == [s[0]] + t;
        NormalizeConcat([s[0]], t);
      }
    }
  }

  /** Normalised form of a schema path (line 155 of the controller): the same as
      normalising the path directly. */
  function NormalizePath(path: string): (r: string)
    ensures r == NormalizeKey(path)
  {
    BracketRemovalInvisible(path);
    NormalizeKey(RemoveFirstBrackets(path))
  }

  /** The line-item prefix `lines[].` normalises to `lines`. */
  lemma LinesPrefixNormalForm()
    ensures NormalizeKey("lines[].") == "lines"
  {
    LinesWordNormal();
    BracketsDotDropped();
    NormalizeConcat("lines", "[].");
    assert "lines" + "[]." == "lines[].";
  }

  lemma LinesWordNormal()
    ensures NormalizeKey("lines") == "lines"
  {
    var w := "lines";
    assert forall i :: 0 <= i < |w| ==> IsNormChar(w[i]);
  }

  lemma BracketsDotDropped()
    ensures NormalizeKey("[].") == []
  {
    var t := "[].";
    assert NormChar(t[0]).None? && NormChar(t[1]).None? && NormChar(t[2]).None?;
    assert NormalizeKey(t[2..]) == [];
    assert NormalizeKey(t[1..]) == [];
  }
}
