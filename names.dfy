/** Column-name canonicalisation:
    `c.strip().lower().replace(" ", "_").replace(".", "_")`. */
module Names {

  /** Python's `str.isspace`: the characters `strip()` removes. */
  predicate IsSpace(c: char) {
    var n := c as int;
    n == 0x20 || 0x09 <= n <= 0x0D || 0x1C <= n <= 0x1F || n == 0x85 || n == 0xA0
    || n == 0x1680 || 0x2000 <= n <= 0x200A || n == 0x2028 || n == 0x2029
    || n == 0x202F || n == 0x205F || n == 0x3000
  }

  predicate IsUpper(c: char) {
    'A' <= c <= 'Z'
  }

  /** `str.lstrip()`: the longest suffix that does not start with whitespace;
      everything removed is whitespace. */
  function StripLeft(s: string): (r: string)
    ensures r == [] || !IsSpace(r[0])
    ensures |r| <= |s| && r == s[|s| - |r|..]
    ensures forall i {:trigger IsSpace(s[i])} :: 0 <= i < |s| - |r| ==> IsSpace(s[i])
  {
    if s != [] && IsSpace(s[0]) then StripLeft(s[1..]) else s
  }

  /** `str.rstrip()`: the longest prefix that does not end with whitespace;
      everything removed is whitespace. */
  function StripRight(s: string): (r: string)
    ensures r == [] || !IsSpace(r[|r| - 1])
    ensures |r| <= |s| && r == s[..|r|]
    ensures forall i {:trigger IsSpace(s[i])} :: |r| <= i < |s| ==> IsSpace(s[i])
  {
    if s != [] && IsSpace(s[|s| - 1]) then StripRight(s[..|s| - 1]) else s
  }

  /** `str.strip()`: the slice of `s` left once the whitespace at both ends is
      removed. */
  function Strip(s: string): (r: string)
    ensures r == [] || (!IsSpace(r[0]) && !IsSpace(r[|r| - 1]))
    ensures exists a, b :: 0 <= a <= b <= |s| && r == s[a..b] &&
              (forall i {:trigger IsSpace(s[i])} :: 0 <= i < a ==> IsSpace(s[i])) &&
              (forall i {:trigger IsSpace(s[i])} :: b <= i < |s| ==> IsSpace(s[i]))
  {
    var l := StripLeft(s);
    var r := StripRight(l);
    assert r != [] ==> r[0] == l[0];
    StripSlice(s, l, r);
    r
  }

  /** A whitespace suffix cut from a suffix left after cutting a whitespace
      prefix leaves a slice with whitespace on both sides. */
  lemma StripSlice(s: string, l: string, r: string)
    requires |l| <= |s| && l == s[|s| - |l|..]
    requires forall i {:trigger IsSpace(s[i])} :: 0 <= i < |s| - |l| ==> IsSpace(s[i])
    requires |r| <= |l| && r == l[..|r|]
    requires forall i {:trigger IsSpace(l[i])} :: |r| <= i < |l| ==> IsSpace(l[i])
    ensures exists a, b :: 0 <= a <= b <= |s| && r == s[a..b] &&
              (forall i {:trigger IsSpace(s[i])} :: 0 <= i < a ==> IsSpace(s[i])) &&
              (forall i {:trigger IsSpace(s[i])} :: b <= i < |s| ==> IsSpace(s[i]))
  {
    var a := |s| - |l|;
    assert r == s[a..a + |r|];
    forall i | a + |r| <= i < |s| ensures IsSpace(s[i]) {
      assert s[i] == l[i - a];
      assert IsSpace(l[i - a]);
    }
    assert 0 <= a <= a + |r| <= |s| && r == s[a..a + |r|];
  }

  /** One character through `str.lower()`: an ASCII capital becomes its small
      letter, anything else is kept. */
  function LowerChar(c: char): (r: char)
    ensures !IsUpper(r) && (!IsUpper(c) ==> r == c)
    ensures IsUpper(c) ==> 'a' <= r <= 'z' && r as int - 'a' as int == c as int - 'A' as int
  {
    if IsUpper(c) then (c as int + 32) as char else c
  }

  /** `str.lower()` on the ASCII letters. */
  function Lower(s: string): (r: string)
    ensures |r| == |s|
    ensures forall i :: 0 <= i < |s| ==> !IsUpper(r[i])
    ensures forall i :: 0 <= i < |s| && !IsUpper(s[i]) ==> r[i] == s[i]
    ensures forall i :: 0 <= i < |s| && IsUpper(s[i]) ==>
              'a' <= r[i] <= 'z' && r[i] as int - 'a' as int == s[i] as int - 'A' as int
  {
    seq(|s|, i requires 0 <= i < |s| => LowerChar(s[i]))
  }

  /** `.replace(" ", "_").replace(".", "_")`: no space or dot is left, and
      every other character is kept. */
  function Underscore(s: string): (r: string)
    ensures |r| == |s|
    ensures forall i :: 0 <= i < |s| ==> r[i] != ' ' && r[i] != '.'
    ensures forall i :: 0 <= i < |s| ==> r[i] == if s[i] == ' ' || s[i] == '.' then '_' else s[i]
  {
    seq(|s|, i requires 0 <= i < |s| => if s[i] == ' ' || s[i] == '.' then '_' else s[i])
  }

  /** The name a source column gets. */
  function Canonical(c: string): string {
    Underscore(Lower(Strip(c)))
  }

  /** A name with no space, no dot, no upper-case letter and no surrounding
      whitespace. */
  predicate IsCanonical(s: string) {
    && (forall i :: 0 <= i < |s| ==> s[i] != ' ' && s[i] != '.' && !IsUpper(s[i]))
    && (s == [] || (!IsSpace(s[0]) && !IsSpace(s[|s| - 1])))
  }

  /** Every name the normaliser produces is canonical. */
  lemma CanonicalIsCanonical(c: string)
    ensures IsCanonical(Canonical(c))
    ensures |Canonical(c)| <= |c|
  {
    StripShorter(c);
    StrippedCanonical(Strip(c));
  }

  lemma StripShorter(c: string)
    ensures |Strip(c)| <= |c|
  {
    assert |StripRight(StripLeft(c))| <= |c|;
  }

  /** A name with no whitespace at its ends is canonical once lower-cased and
      its spaces and dots replaced. */
  lemma StrippedCanonical(s: string)
    requires s == [] || (!IsSpace(s[0]) && !IsSpace(s[|s| - 1]))
    ensures IsCanonical(Underscore(Lower(s)))
  {
    StagesCanonical(s, Lower(s), Underscore(Lower(s)));
  }

  /** The lower-casing and the replacements, stated by their effect on each
      character, turn a stripped name into a canonical one. */
  lemma StagesCanonical(s: string, l: string, r: string)
    requires s == [] || (!IsSpace(s[0]) && !IsSpace(s[|s| - 1]))
    requires |l| == |s| && |r| == |l|
    requires forall i :: 0 <= i < |s| ==> !IsUpper(l[i])
    requires forall i :: 0 <= i < |s| && !IsUpper(s[i]) ==> l[i] == s[i]
    requires forall i :: 0 <= i < |s| && IsUpper(s[i]) ==> 'a' <= l[i] <= 'z'
    requires forall i :: 0 <= i < |l| ==> r[i] == if l[i] == ' ' || l[i] == '.' then '_' else l[i]
    ensures IsCanonical(r)
  {
    if r != [] {
      var n := |r| - 1;
      EndCanonical(s[0], l[0], r[0]);
      EndCanonical(s[n], l[n], r[n]);
    }
  }

  /** An end character of a stripped name stays non-whitespace through the
      lower-casing and the replacements. */
  lemma EndCanonical(x: char, y: char, z: char)
    requires !IsSpace(x)
    requires (!IsUpper(x) ==> y == x) && (IsUpper(x) ==> 'a' <= y <= 'z')
    requires z == if y == ' ' || y == '.' then '_' else y
    ensures !IsSpace(z)
  {
  }

  /** A canonical name is left as it is. */
  lemma CanonicalFixed(s: string)
    requires IsCanonical(s)
    ensures Canonical(s) == s
  {
    assert StripLeft(s) == s;
    assert StripRight(s) == s;
    assert Lower(s) == s;
  }

  /** The names canonicalisation leaves unchanged are exactly the canonical
      ones; so canonicalising twice is canonicalising once. */
  lemma CanonicalIdempotent(c: string)
    ensures Canonical(Canonical(c)) == Canonical(c)
    ensures Canonical(c) == c <==> IsCanonical(c)
  {
    CanonicalIsCanonical(c);
    CanonicalFixed(Canonical(c));
    if IsCanonical(c) {
      CanonicalFixed(c);
    }
  }

  /** The key json_normalize gives a nested member, `outer.inner`, becomes
      `outer_inner` when both parts are canonical already. */
  lemma CanonicalJoin(outer: string, inner: string)
    requires outer != [] && inner != [] && IsCanonical(outer) && IsCanonical(inner)
    ensures Canonical(outer + "." + inner) == outer + "_" + inner
  {
    var s := outer + "." + inner;
    assert s[0] == outer[0] && s[|s| - 1] == inner[|inner| - 1];
    assert StripLeft(s) == s;
    assert StripRight(s) == s;
    assert Lower(s) == s;
    var u := Underscore(s);
    var want := outer + "_" + inner;
    assert |u| == |want|;
    forall k | 0 <= k < |u| ensures u[k] == want[k] {
      if k < |outer| {
        assert s[k] == outer[k] && want[k] == outer[k];
      } else if k > |outer| {
        assert s[k] == inner[k - |outer| - 1] && want[k] == inner[k - |outer| - 1];
      }
    }
  }

  /** A word of lower-case ASCII letters is canonical. */
  lemma LowerWordCanonical(s: string)
    requires forall i :: 0 <= i < |s| ==> 'a' <= s[i] <= 'z'
    ensures IsCanonical(s)
  {
  }

  /** The words of a product's nested rating members are canonical. */
  lemma RatingWords()
    ensures IsCanonical("rating") && IsCanonical("rate") && IsCanonical("count")
  {
    LowerWordCanonical("rating");
    LowerWordCanonical("rate");
    LowerWordCanonical("count");
  }

  /** The nested rating members of a product become `rating_rate` and
      `rating_count`. */
  lemma RatingRateName()
    ensures Canonical("rating.rate") == "rating_rate"
  {
    RatingWords();
    CanonicalJoin("rating", "rate");
    assert "rating" + "." + "rate" == "rating.rate" && "rating" + "_" + "rate" == "rating_rate";
  }

  lemma RatingCountName()
    ensures Canonical("rating.count") == "rating_count"
  {
    RatingWords();
    CanonicalJoin("rating", "count");
    assert "rating" + "." + "count" == "rating.count" && "rating" + "_" + "count" == "rating_count";
  }
}
