/** The few operations of Go's `strings` package that the resolver relies on,
    over `string` = `seq<char>`. */
module GoStrings {

  /** strings.HasPrefix */
  predicate HasPrefix(s: string, prefix: string) {
    |prefix| <= |s| && s[..|prefix|] == prefix
  }

  /** strings.HasSuffix */
  predicate HasSuffix(s: string, suffix: string) {
    |suffix| <= |s| && s[|s| - |suffix|..] == suffix
  }

  /** `sub` occurs in `s` starting at index `k`. */
  ghost predicate OccursAt(s: string, sub: string, k: int) {
    0 <= k <= |s| - |sub| && s[k..k + |sub|] == sub
  }

  /** strings.Contains: `sub` occurs somewhere in `s`. */
  ghost predicate Contains(s: string, sub: string) {
    exists k :: OccursAt(s, sub, k)
  }

  /** strings.TrimLeft(s, cutset): removes every leading character of `s`
      that occurs in `cutset`. This is a character-set trim, not the removal
      of one prefix: TrimLeft("vv1.0", "v") is "1.0". */
  function TrimLeft(s: string, cutset: string): string
    decreases |s|
  {
    if |s| > 0 && s[0] in cutset then TrimLeft(s[1..], cutset) else s
  }

  /** What TrimLeft returns: a suffix of its input that is empty or starts
      with a character outside the cutset, where every character removed in
      front of it belongs to the cutset. */
  lemma {:induction false} TrimLeftSpec(s: string, cutset: string)
    ensures HasSuffix(s, TrimLeft(s, cutset))
    ensures TrimLeft(s, cutset) == [] || TrimLeft(s, cutset)[0] !in cutset
    ensures forall i :: 0 <= i < |s| - |TrimLeft(s, cutset)| ==> s[i] in cutset
    decreases |s|
  {
    if |s| > 0 && s[0] in cutset {
      var r := TrimLeft(s[1..], cutset);
      TrimLeftSpec(s[1..], cutset);
      assert s[1..][|s| - 1 - |r|..] == s[|s| - |r|..];
      assert forall i :: 1 <= i < |s| - |r| ==> s[i] == s[1..][i - 1];
    }
  }

  /** The three facts of TrimLeftSpec determine TrimLeft's result: any suffix of
      `s` that starts with a character outside `cutset` (or is empty) and
      leaves only characters of `cutset` in front of it is TrimLeft(s, cutset). */
  lemma {:induction false} TrimLeftUnique(s: string, cutset: string, r: string)
    requires HasSuffix(s, r)
    requires r == [] || r[0] !in cutset
    requires forall i :: 0 <= i < |s| - |r| ==> s[i] in cutset
    ensures TrimLeft(s, cutset) == r
    decreases |s|
  {
    if |s| == |r| {
      assert s == r;
      assert s == [] || s[0] !in cutset;
    } else {
      assert s[0] in cutset;
      assert s[1..][|s| - 1 - |r|..] == s[|s| - |r|..];
      forall i | 0 <= i < |s| - 1 - |r|
        ensures s[1..][i] in cutset
      {
        assert s[1..][i] == s[i + 1];
      }
      TrimLeftUnique(s[1..], cutset, r);
    }
  }

  /** Trimming twice is trimming once. */
  lemma TrimLeftIdempotent(s: string, cutset: string)
    ensures TrimLeft(TrimLeft(s, cutset), cutset) == TrimLeft(s, cutset)
  {
    TrimLeftSpec(s, cutset);
  }

  /** A string that does not start with a character of the cutset is returned unchanged. */
  lemma TrimLeftUnchanged(s: string, cutset: string)
    requires s == [] || s[0] !in cutset
    ensures TrimLeft(s, cutset) == s
  {
  }

  /** Trimming a string is trimming what is left after its first cutset character. */
  lemma TrimLeftDropsLeading(c: char, s: string, cutset: string)
    requires c in cutset
    ensures TrimLeft([c] + s, cutset) == TrimLeft(s, cutset)
  {
    assert ([c] + s)[1..] == s;
  }

  /** The examples that show the cutset semantics with cutset "v": repeated
      leading `v`s all go, a word that merely starts with `v` loses its first
      letter, a lone "v" becomes empty, and an upper-case `V` stays. */
  lemma TrimLeftExamples()
    ensures TrimLeft("vv1.0", "v") == "1.0"
    ensures TrimLeft("version1.0", "v") == "ersion1.0"
    ensures TrimLeft("v", "v") == ""
    ensures TrimLeft("V1.0", "v") == "V1.0"
    ensures TrimLeft("1.2.3", "v") == "1.2.3"
  {
    assert "vv1.0" == ['v'] + "v1.0" && "v1.0" == ['v'] + "1.0";
    TrimLeftDropsLeading('v', "v1.0", "v");
    TrimLeftDropsLeading('v', "1.0", "v");
    TrimLeftUnchanged("1.0", "v");
    assert "version1.0" == ['v'] + "ersion1.0";
    TrimLeftDropsLeading('v', "ersion1.0", "v");
    TrimLeftUnchanged("ersion1.0", "v");
    TrimLeftDropsLeading('v', "", "v");
  }

  /** `sub` occurs at the end of `front + sub`. */
  lemma ContainsEnd(front: string, sub: string)
    ensures Contains(front + sub, sub)
  {
    var s := front + sub;
    assert s[|front|..|front| + |sub|] == sub;
    assert OccursAt(s, sub, |front|);
  }

  /** What occurs in `s` still occurs once more text is appended. */
  lemma ContainsExtend(s: string, sub: string, more: string)
    requires Contains(s, sub)
    ensures Contains(s + more, sub)
  {
    var k :| OccursAt(s, sub, k);
    assert (s + more)[k..k + |sub|] == s[k..k + |sub|];
    assert OccursAt(s + more, sub, k);
  }

  /** A suffix occurs in the string. */
  lemma SuffixContained(s: string, suffix: string)
    requires HasSuffix(s, suffix)
    ensures Contains(s, suffix)
  {
    assert s[|s| - |suffix|..|s| - |suffix| + |suffix|] == suffix;
    assert OccursAt(s, suffix, |s| - |suffix|);
  }
}
