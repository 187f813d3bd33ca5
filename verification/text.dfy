/**
 * String helpers the importer relies on: ASCII case folding (Python's
 * `str.lower` restricted to ASCII), `str.rfind`, the candidate media
 * extension of a field value, and Python's code-point ordering of strings.
 */
module Text {
  import opened Wrappers

  /** ASCII lower-casing of one character; every other character is kept. */
  function LowerChar(c: char): char {
    if 'A' <= c <= 'Z' then (c as int + 32) as char else c
  }

  /** ASCII lower-casing of a string, character by character. */
  function Lower(s: string): string {
    seq(|s|, i requires 0 <= i < |s| => LowerChar(s[i]))
  }

  /** Lower-casing leaves no upper-case ASCII letter, keeps the length, and is idempotent. */
  lemma {:induction false} LowerNormalises(s: string)
    ensures |Lower(s)| == |s|
    ensures forall i :: 0 <= i < |s| ==> !('A' <= Lower(s)[i] <= 'Z')
    ensures Lower(Lower(s)) == Lower(s)
  {
  }

  /** Lower-casing never creates or removes a '.'. */
  lemma {:induction false} LowerKeepsDots(s: string)
    ensures forall i :: 0 <= i < |s| ==> (Lower(s)[i] == '.' <==> s[i] == '.')
  {
  }

  /** Lower-casing commutes with taking a suffix. */
  lemma {:induction false} LowerSuffix(s: string, k: nat)
    requires k <= |s|
    ensures Lower(s[k..]) == Lower(s)[k..]
  {
  }

  /**
   * Python's `s.rfind(c)`: the index of the last occurrence of `c` in `s`,
   * or -1 when there is none.
   */
  function RFind(s: string, c: char): (r: int)
    ensures -1 <= r < |s|
    ensures r == -1 <==> c !in s
    ensures r >= 0 ==> s[r] == c
    ensures forall j :: r < j < |s| ==> s[j] != c
  {
    if |s| == 0 then -1
    else if s[|s| - 1] == c then |s| - 1
    else RFind(s[..|s| - 1], c)
  }

  /** Two strings with '.' in the same places have their last '.' in the same place. */
  lemma {:induction false} RFindSameDots(a: string, b: string)
    requires |a| == |b|
    requires forall i :: 0 <= i < |a| ==> (a[i] == '.' <==> b[i] == '.')
    ensures RFind(a, '.') == RFind(b, '.')
  {
    if |a| > 0 && a[|a| - 1] != '.' {
      RFindSameDots(a[..|a| - 1], b[..|b| - 1]);
    }
  }

  /**
   * The candidate media extension of a field value: nothing when the value
   * holds no '.', otherwise the lower-cased text after its last '.'.
   */
  function CandidateExtension(value: string): (r: Option<string>)
    ensures r.None? <==> '.' !in value
  {
    if '.' in value then Some(Lower(value[RFind(value, '.') + 1..])) else None
  }

  /**
   * The extension is the lower-cased text after the one '.' that has no '.'
   * after it, so it holds no '.' and no upper-case ASCII letter itself.
   */
  lemma {:induction false} ExtensionIsLastSuffix(value: string)
    requires '.' in value
    ensures var ext := CandidateExtension(value).value;
      && '.' !in ext && Lower(ext) == ext && |ext| < |value|
      && exists k :: 0 <= k < |value| && value[k] == '.' && '.' !in value[k + 1..]
                     && ext == Lower(value[k + 1..])
  {
    var k := RFind(value, '.');
    var suffix := value[k + 1..];
    var ext := Lower(suffix);
    LowerKeepsDots(suffix);
    LowerNormalises(suffix);
    assert forall j :: 0 <= j < |suffix| ==> suffix[j] == value[k + 1 + j];
    assert '.' !in suffix;
    assert forall j :: 0 <= j < |ext| ==> ext[j] != '.';
  }

  /** Strings equal up to ASCII case have the same length and '.' in the same places. */
  lemma {:induction false} SameLowerSameDots(a: string, b: string)
    requires Lower(a) == Lower(b)
    ensures |a| == |b|
    ensures forall i :: 0 <= i < |a| ==> (a[i] == '.' <==> b[i] == '.')
    ensures '.' in a <==> '.' in b
  {
    LowerNormalises(a);
    LowerNormalises(b);
    LowerKeepsDots(a);
    LowerKeepsDots(b);
    if '.' in a {
      var i :| 0 <= i < |a| && a[i] == '.';
      assert b[i] == '.';
    }
    if '.' in b {
      var i :| 0 <= i < |b| && b[i] == '.';
      assert a[i] == '.';
    }
  }

  /** The extension is matched case-insensitively: values that agree up to ASCII case have the same one. */
  lemma {:induction false} ExtensionIgnoresCase(a: string, b: string)
    requires Lower(a) == Lower(b)
    ensures CandidateExtension(a) == CandidateExtension(b)
  {
    SameLowerSameDots(a, b);
    if '.' in a {
      RFindSameDots(a, b);
      var k := RFind(a, '.');
      LowerSuffix(a, k + 1);
      LowerSuffix(b, k + 1);
    }
  }

  /** Python's ordering of strings: lexicographic on code points, a proper prefix first. */
  predicate StrLe(a: string, b: string) {
    if |a| == 0 then true
    else if |b| == 0 then false
    else a[0] < b[0] || (a[0] == b[0] && StrLe(a[1..], b[1..]))
  }

  predicate StrLt(a: string, b: string) {
    StrLe(a, b) && a != b
  }

  lemma {:induction false} StrLeReflexive(a: string)
    ensures StrLe(a, a)
  {
    if |a| > 0 {
      StrLeReflexive(a[1..]);
    }
  }

  lemma {:induction false} StrLeTotal(a: string, b: string)
    ensures StrLe(a, b) || StrLe(b, a)
  {
    if |a| > 0 && |b| > 0 && a[0] == b[0] {
      StrLeTotal(a[1..], b[1..]);
    }
  }

  lemma {:induction false} StrLeAntisymmetric(a: string, b: string)
    requires StrLe(a, b) && StrLe(b, a)
    ensures a == b
  {
    if |a| > 0 && |b| > 0 {
      StrLeAntisymmetric(a[1..], b[1..]);
      assert a == [a[0]] + a[1..];
      assert b == [b[0]] + b[1..];
    }
  }

  lemma {:induction false} StrLeTransitive(a: string, b: string, c: string)
    requires StrLe(a, b) && StrLe(b, c)
    ensures StrLe(a, c)
  {
    if |a| > 0 && |b| > 0 && |c| > 0 && a[0] == b[0] && b[0] == c[0] {
      StrLeTransitive(a[1..], b[1..], c[1..]);
    }
  }

  lemma {:induction false} StrLtTransitive(a: string, b: string, c: string)
    requires StrLt(a, b) && StrLe(b, c)
    ensures StrLt(a, c)
  {
    StrLeTransitive(a, b, c);
    if a == c {
      StrLeAntisymmetric(a, b);
    }
  }
}
