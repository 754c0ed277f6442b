/** `filter_unique_songs` (scraper.py:156-176): one forward pass over the
    records with a set of seen `youtube_id` values. A record is kept when its
    id is present and non-empty and has not been seen before; the first
    occurrence of each id wins. */
module Dedup {
  import opened Wrappers
  import opened Records

  /** The id test of the pass: `youtube_id` is truthy, i.e. present and non-empty. */
  predicate HasKey(r: Record) {
    r.youtubeId.Some? && r.youtubeId.value != ""
  }

  /** Index `i` holds the first record of `s` with its (valid) id. */
  predicate FirstOccurrence(s: seq<Record>, i: int)
    requires 0 <= i < |s|
  {
    HasKey(s[i]) && forall j :: 0 <= j < i ==> s[j].youtubeId != s[i].youtubeId
  }

  /** `a` is obtained from `b` by deleting elements, without reordering. */
  predicate IsSubsequence<T(==)>(a: seq<T>, b: seq<T>)
    decreases |b|
  {
    if a == [] then true
    else if b == [] then false
    else (a[0] == b[0] && IsSubsequence(a[1..], b[1..])) || IsSubsequence(a, b[1..])
  }

  /** No two records carry the same id. */
  predicate DistinctKeys(s: seq<Record>) {
    forall i, j :: 0 <= i < j < |s| ==> s[i].youtubeId != s[j].youtubeId
  }

  /** The remaining part of the pass, from a given set of already seen ids. */
  function UniqueFrom(data: seq<Record>, seen: set<string>): (out: seq<Record>)
    ensures |out| <= |data|
    ensures forall r :: r in out ==> r in data && HasKey(r) && r.youtubeId.value !in seen
    ensures DistinctKeys(out)
    ensures IsSubsequence(out, data)
  {
    if data == [] then []
    else
      var r := data[0];
      if HasKey(r) && r.youtubeId.value !in seen then
        var rest := UniqueFrom(data[1..], seen + {r.youtubeId.value});
        [r] + rest
      else
        UniqueFrom(data[1..], seen)
  }

  /** `filter_unique_songs`: an order-preserving subsequence of its input
      whose ids are all present, non-empty and pairwise distinct. */
  function FilterUniqueSongs(data: seq<Record>): (out: seq<Record>)
    ensures |out| <= |data|
    ensures IsSubsequence(out, data)
    ensures forall r :: r in out ==> HasKey(r)
    ensures DistinctKeys(out)
  {
    UniqueFrom(data, {})
  }

  /** The ids a pass over `data` adds to `seen`. */
  function SeenAfter(data: seq<Record>, seen: set<string>): (s: set<string>)
    ensures seen <= s
    ensures forall i :: 0 <= i < |data| && HasKey(data[i]) ==> data[i].youtubeId.value in s
    ensures forall k :: k in s ==> k in seen || exists i :: 0 <= i < |data| && HasKey(data[i]) && data[i].youtubeId == Some(k)
  {
    if data == [] then seen
    else
      var seen' := if HasKey(data[0]) then seen + {data[0].youtubeId.value} else seen;
      var s := SeenAfter(data[1..], seen');
      assert forall i :: 1 <= i < |data| ==> data[i] == data[1..][i - 1];
      s
  }

  /** A present, non-empty id of the input that was not seen beforehand
      reaches the output. */
  lemma {:induction false} UniqueFromCoversKey(data: seq<Record>, seen: set<string>, i: int)
    requires 0 <= i < |data| && HasKey(data[i]) && data[i].youtubeId.value !in seen
    ensures exists j :: 0 <= j < |UniqueFrom(data, seen)| && UniqueFrom(data, seen)[j].youtubeId == data[i].youtubeId
  {
    var r := data[0];
    var out := UniqueFrom(data, seen);
    if HasKey(r) && r.youtubeId.value !in seen {
      var seen' := seen + {r.youtubeId.value};
      var rest := UniqueFrom(data[1..], seen');
      assert out == [r] + rest;
      if data[i].youtubeId == r.youtubeId {
        assert out[0] == r;
      } else {
        assert data[1..][i - 1] == data[i];
        UniqueFromCoversKey(data[1..], seen', i - 1);
        var j :| 0 <= j < |rest| && rest[j].youtubeId == data[i].youtubeId;
        assert out[j + 1] == rest[j];
      }
    } else {
      assert i != 0;
      assert data[1..][i - 1] == data[i];
      UniqueFromCoversKey(data[1..], seen, i - 1);
    }
  }

  /** An output record is the first record of the input with its id. */
  lemma {:induction false} UniqueFromKeepsFirst(data: seq<Record>, seen: set<string>, j: int)
    requires 0 <= j < |UniqueFrom(data, seen)|
    ensures exists i :: 0 <= i < |data| && FirstOccurrence(data, i) && UniqueFrom(data, seen)[j] == data[i]
  {
    var r := data[0];
    var out := UniqueFrom(data, seen);
    var isNew := HasKey(r) && r.youtubeId.value !in seen;
    var seen' := if isNew then seen + {r.youtubeId.value} else seen;
    var rest := UniqueFrom(data[1..], seen');
    assert out == if isNew then [r] + rest else rest;
    if isNew && j == 0 {
      assert FirstOccurrence(data, 0) && out[0] == data[0];
    } else {
      var j' := if isNew then j - 1 else j;
      assert out[j] == rest[j'];
      UniqueFromKeepsFirst(data[1..], seen', j');
      var i' :| 0 <= i' < |data[1..]| && FirstOccurrence(data[1..], i') && rest[j'] == data[1..][i'];
      assert rest[j'] in rest;
      assert r.youtubeId != data[i' + 1].youtubeId;
      assert FirstOccurrence(data, i' + 1);
    }
  }

  /** The pass over a concatenation is the pass over the first part followed
      by the pass over the second part, with the ids of the first part seen. */
  lemma {:induction false} UniqueFromAppend(a: seq<Record>, b: seq<Record>, seen: set<string>)
    ensures UniqueFrom(a + b, seen) == UniqueFrom(a, seen) + UniqueFrom(b, SeenAfter(a, seen))
  {
    if a == [] {
      assert a + b == b;
    } else {
      assert (a + b)[0] == a[0];
      assert (a + b)[1..] == a[1..] + b;
      var seen' := if HasKey(a[0]) then seen + {a[0].youtubeId.value} else seen;
      assert HasKey(a[0]) && a[0].youtubeId.value in seen ==> seen' == seen;
      UniqueFromAppend(a[1..], b, seen');
    }
  }

  /** An input that already has present, distinct, unseen ids passes unchanged. */
  lemma {:induction false} UniqueFromIdentity(data: seq<Record>, seen: set<string>)
    requires forall r :: r in data ==> HasKey(r) && r.youtubeId.value !in seen
    requires DistinctKeys(data)
    ensures UniqueFrom(data, seen) == data
  {
    if data != [] {
      var k := data[0].youtubeId.value;
      forall r | r in data[1..]
        ensures HasKey(r) && r.youtubeId.value !in seen + {k}
      {
        var i :| 0 <= i < |data[1..]| && data[1..][i] == r;
        assert data[i + 1] == r;
      }
      UniqueFromIdentity(data[1..], seen + {k});
    }
  }

  /** `filter_unique_songs` keeps, for every present non-empty id of its
      input, exactly the first input record carrying it, and nothing else. */
  lemma FilterUniqueSongsFirstWins(data: seq<Record>)
    ensures forall i :: 0 <= i < |data| && FirstOccurrence(data, i) ==> data[i] in FilterUniqueSongs(data)
    ensures forall r :: r in FilterUniqueSongs(data) ==>
      exists i :: 0 <= i < |data| && FirstOccurrence(data, i) && r == data[i]
  {
    var out := FilterUniqueSongs(data);
    forall i | 0 <= i < |data| && FirstOccurrence(data, i)
      ensures data[i] in out
    {
      UniqueFromCoversKey(data, {}, i);
      var j :| 0 <= j < |out| && out[j].youtubeId == data[i].youtubeId;
      UniqueFromKeepsFirst(data, {}, j);
      var i' :| 0 <= i' < |data| && FirstOccurrence(data, i') && out[j] == data[i'];
      assert data[i'].youtubeId == data[i].youtubeId;
      assert i' == i;
    }
    forall r | r in out
      ensures exists i :: 0 <= i < |data| && FirstOccurrence(data, i) && r == data[i]
    {
      var j :| 0 <= j < |out| && out[j] == r;
      UniqueFromKeepsFirst(data, {}, j);
    }
  }

  /** The reference by position: the records at the indices below `n` that
      hold the first occurrence of their id, in index order. */
  function FirstOccurrences(data: seq<Record>, n: int): (out: seq<Record>)
    requires 0 <= n <= |data|
    ensures |out| <= n
  {
    if n == 0 then []
    else FirstOccurrences(data, n - 1) + (if FirstOccurrence(data, n - 1) then [data[n - 1]] else [])
  }

  /** The pass over the first `n` records keeps exactly the first occurrences
      among them, in order. */
  lemma {:induction false} UniquePrefix(data: seq<Record>, n: int)
    requires 0 <= n <= |data|
    ensures UniqueFrom(data[..n], {}) == FirstOccurrences(data, n)
  {
    if n == 0 {
      assert data[..0] == [];
    } else {
      UniquePrefix(data, n - 1);
      var p := data[..n - 1];
      var x := data[n - 1];
      assert data[..n] == p + [x];
      UniqueFromAppend(p, [x], {});
      var seen := SeenAfter(p, {});
      assert [x][1..] == [];
      assert UniqueFrom([x], seen) == if HasKey(x) && x.youtubeId.value !in seen then [x] else [];
      UnseenIsFirst(data, n - 1);
    }
  }

  /** Index `i` holds a first occurrence exactly when its id is present,
      non-empty and not among the ids of the records before it. */
  lemma UnseenIsFirst(data: seq<Record>, i: int)
    requires 0 <= i < |data|
    ensures FirstOccurrence(data, i) <==>
      HasKey(data[i]) && data[i].youtubeId.value !in SeenAfter(data[..i], {})
  {
    var p := data[..i];
    var seen := SeenAfter(p, {});
    if HasKey(data[i]) && data[i].youtubeId.value in seen {
      var j :| 0 <= j < |p| && HasKey(p[j]) && p[j].youtubeId == Some(data[i].youtubeId.value);
      assert data[j] == p[j];
    }
    if HasKey(data[i]) && data[i].youtubeId.value !in seen {
      forall j | 0 <= j < i
        ensures data[j].youtubeId != data[i].youtubeId
      {
        assert p[j] == data[j];
      }
    }
  }

  /** `filter_unique_songs` equals the positional reference: the first
      occurrence of every present, non-empty id, in input order. */
  lemma FilterUniqueSongsIsFirstOccurrences(data: seq<Record>)
    ensures FilterUniqueSongs(data) == FirstOccurrences(data, |data|)
  {
    UniquePrefix(data, |data|);
    assert data[..|data|] == data;
  }

  /** Deduplicating twice gives the same result as deduplicating once. */
  lemma FilterUniqueSongsIdempotent(data: seq<Record>)
    ensures FilterUniqueSongs(FilterUniqueSongs(data)) == FilterUniqueSongs(data)
  {
    UniqueFromIdentity(FilterUniqueSongs(data), {});
  }

  /** A record without a usable id never influences the result, wherever and
      however often it is inserted. */
  lemma FilterUniqueSongsIgnoresKeyless(a: seq<Record>, x: Record, b: seq<Record>)
    requires !HasKey(x)
    ensures FilterUniqueSongs(a + [x] + b) == FilterUniqueSongs(a + b)
  {
    var s := SeenAfter(a, {});
    KeylessPass(x, s);
    UniqueSeenAfterAppend(a, [x], {});
    UniqueFromAppend(a + [x], b, {});
    UniqueFromAppend(a, [x], {});
    UniqueFromAppend(a, b, {});
    assert UniqueFrom(a + [x], {}) == UniqueFrom(a, {});
  }

  /** A single record without a usable id yields nothing and marks nothing seen. */
  lemma KeylessPass(x: Record, seen: set<string>)
    requires !HasKey(x)
    ensures UniqueFrom([x], seen) == []
    ensures SeenAfter([x], seen) == seen
  {
    assert [x][1..] == [];
  }

  /** The ids seen after a concatenation are those seen after each part in turn. */
  lemma {:induction false} UniqueSeenAfterAppend(a: seq<Record>, b: seq<Record>, seen: set<string>)
    ensures SeenAfter(a + b, seen) == SeenAfter(b, SeenAfter(a, seen))
  {
    if a == [] {
      assert a + b == b;
    } else {
      assert (a + b)[0] == a[0];
      assert (a + b)[1..] == a[1..] + b;
      var seen' := if HasKey(a[0]) then seen + {a[0].youtubeId.value} else seen;
      UniqueSeenAfterAppend(a[1..], b, seen');
    }
  }
}
