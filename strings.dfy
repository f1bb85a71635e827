/**
 * The two string facts the path code relies on: PHP's
 * `str_replace('.json', '', entry)` as used to turn a directory entry into a
 * map key, and cancellation of a fixed prefix and suffix (which is what makes
 * every path builder injective in its key).
 */
module PhpStrings {

  /** The extension of every map and arena document. */
  const JsonExt: string := ".json"

  /** `pat` occurs in `s` starting at index `i`. */
  predicate OccursAt(s: string, pat: string, i: nat)
  {
    i + |pat| <= |s| && s[i..i + |pat|] == pat
  }

  /** `s` has at least one occurrence of ".json" anywhere in it. */
  predicate ContainsJsonExt(s: string)
  {
    exists i: nat | i <= |s| :: OccursAt(s, JsonExt, i)
  }

  /** `p` is a prefix of `s`. */
  predicate IsPrefix(p: string, s: string)
  {
    |p| <= |s| && s[..|p|] == p
  }

  /**
   * `str_replace('.json', '', s)`: one left-to-right pass that deletes every
   * non-overlapping occurrence of ".json"; the text left behind is not
   * scanned again.
   */
  function StripJsonExt(s: string): (r: string)
    ensures |r| <= |s|
    decreases |s|
  {
    if |s| == 0 then ""
    else if OccursAt(s, JsonExt, 0) then StripJsonExt(s[|JsonExt|..])
    else [s[0]] + StripJsonExt(s[1..])
  }

  /** An occurrence in the tail of `s` is an occurrence in `s`. */
  lemma NoJsonExtInTail(s: string)
    requires |s| > 0 && !ContainsJsonExt(s)
    ensures !ContainsJsonExt(s[1..])
  {
    forall i: nat | OccursAt(s[1..], JsonExt, i)
      ensures OccursAt(s, JsonExt, i + 1)
    {
      assert s[1..][i..i + |JsonExt|] == s[i + 1..i + 1 + |JsonExt|];
    }
  }

  /** With no ".json" in it, `str_replace` leaves a string as it is. */
  lemma {:induction false} StripJsonExtIdentity(s: string)
    requires !ContainsJsonExt(s)
    ensures StripJsonExt(s) == s
  {
    if |s| > 0 {
      assert !OccursAt(s, JsonExt, 0);
      NoJsonExtInTail(s);
      StripJsonExtIdentity(s[1..]);
      assert [s[0]] + s[1..] == s;
    }
  }

  /**
   * The entry `k.json`, with no ".json" inside `k`, yields the key `k`: no
   * occurrence can straddle the end of `k`, because '.' appears in ".json"
   * only at its start.
   */
  lemma {:induction false} StripJsonExtSuffix(k: string)
    requires !ContainsJsonExt(k)
    ensures StripJsonExt(k + JsonExt) == k
  {
    var s := k + JsonExt;
    if |k| == 0 {
      assert s == JsonExt;
      assert OccursAt(s, JsonExt, 0);
      assert s[|JsonExt|..] == "";
    } else {
      assert !OccursAt(s, JsonExt, 0) by {
        if |k| >= |JsonExt| {
          assert s[..|JsonExt|] == k[..|JsonExt|];
          assert !OccursAt(k, JsonExt, 0);
        } else {
          assert s[|k|] == '.';
        }
      }
      NoJsonExtInTail(k);
      assert s[1..] == k[1..] + JsonExt;
      StripJsonExtSuffix(k[1..]);
      assert [k[0]] + k[1..] == k;
    }
  }

  /** A fixed prefix and a fixed suffix can be cancelled from both sides. */
  lemma CancelAffixes(pre: string, a: string, b: string, suf: string)
    requires pre + a + suf == pre + b + suf
    ensures a == b
  {
    var s := pre + a + suf;
    var t := pre + b + suf;
    assert |a| == |b|;
    assert a == s[|pre|..|pre| + |a|];
    assert b == t[|pre|..|pre| + |b|];
  }
}
