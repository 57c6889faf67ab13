/**
  The screenshot file name built in `take_screenshot`: the text form of the
  current timestamp, with every ':' removed, between a fixed prefix and the
  `.png` extension; the temporary path is that name in the working
  directory. The timestamp is an opaque input string.
 */
module Naming {
  import opened Wrappers

  const Prefix: string := "screenshot-"
  const Extension: string := ".png"
  const CurrentDir: string := "./"

  /** `s.replace(':', '')`: `s` with every colon dropped. */
  function RemoveColons(s: string): (r: string)
    ensures ':' !in r
    ensures |r| <= |s|
    decreases |s|
  {
    if s == [] then []
    else (if s[0] == ':' then [] else [s[0]]) + RemoveColons(s[1..])
  }

  /** `a` can be obtained from `b` by deleting characters. */
  predicate IsSubsequence(a: string, b: string)
    decreases |b|
  {
    if a == [] then true
    else if b == [] then false
    else (a[0] == b[0] && IsSubsequence(a[1..], b[1..])) || IsSubsequence(a, b[1..])
  }

  /** Removing colons keeps every other character with its multiplicity and
      drops every colon, so the result is shorter by the number of colons. */
  lemma {:induction false} RemoveColonsCounts(s: string)
    ensures multiset(RemoveColons(s)) == multiset(s)[':' := 0]
    ensures |RemoveColons(s)| == |s| - multiset(s)[':']
    decreases |s|
  {
    if s != [] {
      RemoveColonsCounts(s[1..]);
      assert s == [s[0]] + s[1..];
      assert multiset(s) == multiset{s[0]} + multiset(s[1..]);
    }
  }

  /** The remaining characters keep their original order. */
  lemma {:induction false} RemoveColonsKeepsOrder(s: string)
    ensures IsSubsequence(RemoveColons(s), s)
    decreases |s|
  {
    if s != [] {
      RemoveColonsKeepsOrder(s[1..]);
      if s[0] != ':' {
        assert RemoveColons(s) == [s[0]] + RemoveColons(s[1..]);
        assert RemoveColons(s)[1..] == RemoveColons(s[1..]);
      } else {
        assert RemoveColons(s) == RemoveColons(s[1..]);
      }
    }
  }

  /** A colon-free subsequence of `t` is no longer than `t` without its
      colons. */
  lemma {:induction false} ColonFreeSubsequenceBound(a: string, t: string)
    requires IsSubsequence(a, t) && ':' !in a
    ensures |a| <= |t| - multiset(t)[':']
    decreases |t|
  {
    if a != [] {
      assert t == [t[0]] + t[1..];
      assert multiset(t) == multiset{t[0]} + multiset(t[1..]);
      if a[0] == t[0] && IsSubsequence(a[1..], t[1..]) {
        assert a[0] in a;
        ColonFreeSubsequenceBound(a[1..], t[1..]);
      } else {
        ColonFreeSubsequenceBound(a, t[1..]);
      }
    }
  }

  /** The three facts above pin the result down: the only colon-free
      subsequence of `s` that is as long as `s` without its colons is
      `RemoveColons(s)`. */
  lemma {:induction false} RemoveColonsUnique(s: string, r: string)
    requires IsSubsequence(r, s) && ':' !in r
    requires |r| == |s| - multiset(s)[':']
    ensures r == RemoveColons(s)
    decreases |s|
  {
    if s != [] {
      assert s == [s[0]] + s[1..];
      assert multiset(s) == multiset{s[0]} + multiset(s[1..]);
      if s[0] == ':' {
        if r != [] {
          assert r[0] in r;
        }
        RemoveColonsUnique(s[1..], r);
      } else {
        if !(r != [] && r[0] == s[0] && IsSubsequence(r[1..], s[1..])) {
          ColonFreeSubsequenceBound(r, s[1..]);
          assert false;
        }
        assert ':' !in r[1..] by {
          forall i | 0 <= i < |r[1..]| ensures r[1..][i] != ':' {
            assert r[1..][i] == r[i + 1];
          }
        }
        RemoveColonsUnique(s[1..], r[1..]);
      }
    }
  }

  /** Removing colons works character by character: it distributes over
      concatenation. */
  lemma {:induction false} RemoveColonsAppend(a: string, b: string)
    ensures RemoveColons(a + b) == RemoveColons(a) + RemoveColons(b)
    decreases |a|
  {
    if a != [] {
      RemoveColonsAppend(a[1..], b);
      assert (a + b)[1..] == a[1..] + b;
    } else {
      assert a + b == b;
    }
  }

  /** A string without colons is left as it is. */
  lemma {:induction false} RemoveColonsNoColon(s: string)
    requires ':' !in s
    ensures RemoveColons(s) == s
    decreases |s|
  {
    if s != [] {
      RemoveColonsNoColon(s[1..]);
      assert s == [s[0]] + s[1..];
    }
  }

  /** `image_name`: "screenshot-", the timestamp text without colons, ".png". */
  function ImageName(timestamp: string): (name: string)
    ensures ':' !in name
    ensures |name| == |Prefix| + |timestamp| - multiset(timestamp)[':'] + |Extension|
    ensures name[..|Prefix|] == Prefix
    ensures name[|name| - |Extension|..] == Extension
  {
    RemoveColonsCounts(timestamp);
    Prefix + RemoveColons(timestamp) + Extension
  }

  /** `temp_path`: the image name in the current directory. */
  function TempPath(timestamp: string): (path: string)
    ensures |path| == |CurrentDir| + |ImageName(timestamp)|
    ensures path[..|CurrentDir|] == CurrentDir
    ensures path[|CurrentDir|..] == ImageName(timestamp)
  {
    CurrentDir + ImageName(timestamp)
  }

  /** Recovers the timestamp part of a file name of the form
      "screenshot-<stamp>.png". */
  function StampOf(name: string): Option<string>
  {
    if |name| >= |Prefix| + |Extension|
       && name[..|Prefix|] == Prefix
       && name[|name| - |Extension|..] == Extension
    then Some(name[|Prefix|..|name| - |Extension|])
    else None
  }

  /** The name determines the colon-free timestamp it was built from. */
  lemma ImageNameRoundTrip(timestamp: string)
    ensures StampOf(ImageName(timestamp)) == Some(RemoveColons(timestamp))
  {
  }

  /** Two timestamps give the same file name exactly when they agree once
      their colons are removed. */
  lemma ImageNameCollision(a: string, b: string)
    ensures ImageName(a) == ImageName(b) <==> RemoveColons(a) == RemoveColons(b)
  {
    if ImageName(a) == ImageName(b) {
      ImageNameRoundTrip(a);
      ImageNameRoundTrip(b);
    }
  }
}
