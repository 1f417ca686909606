/**
  How the dashboard of app/ui/app.py names its samples: the IDs scanned from
  the image directory, and the image and ground-truth file names rebuilt
  from an ID.
 */
module SampleIds {

  /** The suffix of every Cityscapes input image file. */
  const TAG: string := "_leftImg8bit.png"

  /** The suffix of every ground-truth label-ID file. */
  const MASK_TAG: string := "_gtFine_labelIds.png"

  const PNG: string := ".png"

  /** Python's `s.endswith(suffix)`. */
  predicate EndsWith(s: string, suffix: string) {
    |suffix| <= |s| && s[|s| - |suffix|..] == suffix
  }

  /** `TAG` occurs in `s` starting at position `i`. */
  predicate TagAt(s: string, i: int) {
    0 <= i && i + |TAG| <= |s| && s[i..i + |TAG|] == TAG
  }

  predicate ContainsTag(s: string) {
    exists i :: 0 <= i <= |s| - |TAG| && TagAt(s, i)
  }

  /** A window of the tail is the window of the whole one place further on. */
  lemma TailWindow(s: string, i: nat)
    requires 0 < |s| && i + |TAG| <= |s| - 1
    ensures s[1..][i..i + |TAG|] == s[i + 1..i + 1 + |TAG|]
  {
  }

  /** A name that does not start with `TAG` contains it exactly when its
      tail does. */
  lemma ContainsTagTail(s: string)
    requires |s| > 0 && !TagAt(s, 0)
    ensures ContainsTag(s) <==> ContainsTag(s[1..])
  {
    if ContainsTag(s) {
      var i :| 0 <= i <= |s| - |TAG| && TagAt(s, i);
      TailWindow(s, i - 1);
      assert TagAt(s[1..], i - 1);
    }
    if ContainsTag(s[1..]) {
      var i :| 0 <= i <= |s[1..]| - |TAG| && TagAt(s[1..], i);
      TailWindow(s, i);
      assert TagAt(s, i + 1);
    }
  }

  /** Python's `s.replace(TAG, "")`: scanning left to right, every
      non-overlapping occurrence of `TAG` is deleted. The result equals the
      input exactly when the input holds no occurrence. */
  function RemoveTag(s: string): (r: string)
    ensures |r| <= |s|
    ensures !ContainsTag(s) ==> r == s
    ensures ContainsTag(s) ==> |r| < |s|
    decreases |s|
  {
    if |s| < |TAG| then
      assert !ContainsTag(s);
      s
    else if s[..|TAG|] == TAG then
      assert TagAt(s, 0);
      RemoveTag(s[|TAG|..])
    else
      ContainsTagTail(s);
      assert [s[0]] + s[1..] == s;
      [s[0]] + RemoveTag(s[1..])
  }

  /** The only '_' in `TAG` is its first character, so no proper suffix of
      `TAG` is also a prefix of it. */
  lemma TagHasNoBorder(k: nat)
    requires 0 < k < |TAG|
    ensures TAG[k] != TAG[0]
  {
  }

  /** A window that starts inside `x` and runs into a following `TAG` is not
      an occurrence of `TAG`, whatever comes after. */
  lemma NoTagAcrossSeam(x: string, y: string)
    requires 0 < |x| && (|x| < |TAG| || x[..|TAG|] != TAG)
    ensures (x + TAG + y)[..|TAG|] != TAG
  {
    var s := x + TAG + y;
    if |x| < |TAG| {
      TagHasNoBorder(|x|);
      assert s[|x|] == TAG[0];
      assert s[..|TAG|][|x|] != TAG[|x|];
    } else {
      assert s[..|TAG|] == x[..|TAG|];
    }
  }

  /** One step of the scan when the name starts with `TAG`. */
  lemma RemoveTagAtTag(s: string)
    requires |s| >= |TAG| && s[..|TAG|] == TAG
    ensures RemoveTag(s) == RemoveTag(s[|TAG|..])
  {
  }

  /** One step of the scan when the name does not start with `TAG`. */
  lemma RemoveTagPastChar(s: string)
    requires |s| >= |TAG| && s[..|TAG|] != TAG
    ensures RemoveTag(s) == [s[0]] + RemoveTag(s[1..])
  {
  }

  /** `replace` deletes an occurrence of `TAG` wherever it stands and treats
      the text on either side independently. With the identity on names
      without an occurrence, this determines `RemoveTag` on every name: the
      leftmost occurrence splits a name into a tag-free `x`, `TAG` and a rest. */
  lemma {:induction false} RemoveTagSplit(x: string, y: string)
    ensures RemoveTag(x + TAG + y) == RemoveTag(x) + RemoveTag(y)
    decreases |x|
  {
    var s := x + TAG + y;
    if |x| == 0 {
      assert s[..|TAG|] == TAG && s[|TAG|..] == y;
      RemoveTagAtTag(s);
    } else if |x| >= |TAG| && x[..|TAG|] == TAG {
      assert s[..|TAG|] == TAG;
      assert s[|TAG|..] == x[|TAG|..] + TAG + y;
      RemoveTagAtTag(s);
      RemoveTagAtTag(x);
      RemoveTagSplit(x[|TAG|..], y);
    } else {
      NoTagAcrossSeam(x, y);
      assert s[1..] == x[1..] + TAG + y;
      RemoveTagPastChar(s);
      RemoveTagSplit(x[1..], y);
      if |x| < |TAG| {
        assert RemoveTag(x) == x && RemoveTag(x[1..]) == x[1..];
        assert [x[0]] + x[1..] == x;
      } else {
        RemoveTagPastChar(x);
      }
    }
  }

  /** Appending `TAG` adds one more occurrence for `replace` to delete and
      changes nothing else. */
  lemma RemoveTagAppend(x: string)
    ensures RemoveTag(x + TAG) == RemoveTag(x)
  {
    RemoveTagSplit(x, []);
    assert x + TAG + [] == x + TAG;
    assert RemoveTag([]) == [];
  }

  /** The ID the dashboard derives from an image file name. */
  function SampleId(name: string): (id: string)
    ensures |id| <= |name|
    ensures id == name <==> !ContainsTag(name)
  {
    RemoveTag(name)
  }

  /** The image file name rebuilt from an ID, as in `f"{id}_leftImg8bit.png"`. */
  function ImageFileName(id: string): (name: string)
    ensures |name| == |id| + |TAG| && EndsWith(name, TAG)
    ensures name[..|id|] == id
  {
    id + TAG
  }

  /** The ground-truth file name rebuilt from an ID, as in `f"{id}_gtFine_labelIds.png"`. */
  function MaskFileName(id: string): (name: string)
    ensures |name| == |id| + |MASK_TAG| && EndsWith(name, MASK_TAG)
    ensures name[..|id|] == id
  {
    id + MASK_TAG
  }

  /** Different IDs never share a ground-truth file. */
  lemma MaskFileNameInjective(a: string, b: string)
    requires MaskFileName(a) == MaskFileName(b)
    ensures a == b
  {
    assert a == MaskFileName(a)[..|a|];
    assert b == MaskFileName(b)[..|b|];
  }

  /** Rebuilding the image file name from its ID gives back the scanned name
      exactly when the name is some `x + TAG` with no earlier `TAG` in `x`. */
  lemma RoundTrip(name: string)
    ensures ImageFileName(SampleId(name)) == name <==>
              EndsWith(name, TAG) && !ContainsTag(name[..|name| - |TAG|])
  {
    if EndsWith(name, TAG) {
      var x := name[..|name| - |TAG|];
      assert name == x + TAG;
      RemoveTagAppend(x);
      if ImageFileName(SampleId(name)) == name {
        assert SampleId(name) + TAG == x + TAG;
        assert SampleId(name) == x;
      }
    }
  }

  /** A `.png` name without the suffix keeps its whole name as ID, and the
      rebuilt image file name then differs from it. */
  lemma UntaggedNameDoesNotRoundTrip(name: string)
    requires EndsWith(name, PNG) && !ContainsTag(name)
    ensures SampleId(name) == name
    ensures ImageFileName(SampleId(name)) != name
  {
    assert |ImageFileName(name)| == |name| + |TAG|;
  }

  // ---------------------------------------------------------------------------
  // Sorting (Python's `sorted` on strings: code-point lexicographic order).
  // ---------------------------------------------------------------------------

  /** `a <= b` in Python's string order: a prefix comes first, otherwise the
      first differing character decides. */
  predicate LexLeq(a: string, b: string) {
    |a| == 0 || (|b| > 0 && (a[0] < b[0] || (a[0] == b[0] && LexLeq(a[1..], b[1..]))))
  }

  lemma {:induction false} LexLeqTotal(a: string, b: string)
    ensures LexLeq(a, b) || LexLeq(b, a)
    decreases |a|
  {
    if |a| > 0 && |b| > 0 && a[0] == b[0] {
      LexLeqTotal(a[1..], b[1..]);
    }
  }

  lemma {:induction false} LexLeqTransitive(a: string, b: string, c: string)
    requires LexLeq(a, b) && LexLeq(b, c)
    ensures LexLeq(a, c)
    decreases |a|
  {
    if |a| > 0 && a[0] == b[0] && b[0] == c[0] {
      LexLeqTransitive(a[1..], b[1..], c[1..]);
    }
  }

  lemma {:induction false} LexLeqAntisymmetric(a: string, b: string)
    requires LexLeq(a, b) && LexLeq(b, a)
    ensures a == b
    decreases |a|
  {
    if |a| > 0 {
      LexLeqAntisymmetric(a[1..], b[1..]);
      assert a == [a[0]] + a[1..] && b == [b[0]] + b[1..];
    }
  }

  predicate Sorted(s: seq<string>) {
    forall i :: 0 < i < |s| ==> LexLeq(s[i - 1], s[i])
  }

  function Insert(x: string, s: seq<string>): (r: seq<string>)
    requires Sorted(s)
    ensures Sorted(r)
    ensures multiset(r) == multiset(s) + multiset{x}
    ensures |r| > 0 && (r[0] == x || (|s| > 0 && r[0] == s[0]))
  {
    if |s| == 0 then [x]
    else if LexLeq(x, s[0]) then [x] + s
    else
      LexLeqTotal(x, s[0]);
      assert s == [s[0]] + s[1..];
      [s[0]] + Insert(x, s[1..])
  }

  /** Insertion sort. */
  function Sort(s: seq<string>): (r: seq<string>)
    ensures Sorted(r)
    ensures multiset(r) == multiset(s)
  {
    if |s| == 0 then []
    else
      assert s == [s[0]] + s[1..];
      Insert(s[0], Sort(s[1..]))
  }

  /** The first element of a sorted sequence is below all of it. */
  lemma {:induction false} SortedHeadIsLeast(s: seq<string>, i: nat)
    requires Sorted(s) && i < |s|
    ensures LexLeq(s[0], s[i])
  {
    if i == 0 {
      LexLeqTotal(s[0], s[0]);
    } else {
      SortedHeadIsLeast(s, i - 1);
      LexLeqTransitive(s[0], s[i - 1], s[i]);
    }
  }

  /** Removing the head of a sequence removes one copy of it from the multiset. */
  lemma TailMultiset(a: seq<string>)
    requires |a| > 0
    ensures multiset(a[1..]) == multiset(a) - multiset{a[0]}
  {
    assert a == [a[0]] + a[1..];
  }

  /** Two sorted arrangements of the same strings are equal, so any correct
      sort returns what `Sort` returns. */
  lemma {:induction false} SortedPermutationUnique(a: seq<string>, b: seq<string>)
    requires Sorted(a) && Sorted(b) && multiset(a) == multiset(b)
    ensures a == b
    decreases |a|
  {
    assert |a| == |multiset(a)| == |multiset(b)| == |b|;
    if |a| > 0 {
      assert a[0] in b by { assert a[0] in multiset(a); }
      var j :| 0 <= j < |b| && b[j] == a[0];
      assert b[0] in a by { assert b[0] in multiset(b); }
      var i :| 0 <= i < |a| && a[i] == b[0];
      SortedHeadIsLeast(a, i);
      SortedHeadIsLeast(b, j);
      LexLeqAntisymmetric(a[0], b[0]);
      TailMultiset(a);
      TailMultiset(b);
      SortedPermutationUnique(a[1..], b[1..]);
      assert a == [a[0]] + a[1..] && b == [b[0]] + b[1..];
    }
  }

  // ---------------------------------------------------------------------------
  // load_local_images
  // ---------------------------------------------------------------------------

  /** The `.png` names of a listing, in listing order: each such name keeps
      its multiplicity and every other name is dropped. */
  function PngNames(listing: seq<string>): (names: seq<string>)
    ensures forall f :: multiset(names)[f] == if EndsWith(f, PNG) then multiset(listing)[f] else 0
  {
    if |listing| == 0 then []
    else
      assert listing == [listing[0]] + listing[1..];
      var rest := PngNames(listing[1..]);
      if EndsWith(listing[0], PNG) then [listing[0]] + rest else rest
  }

  /** The list comprehension: the ID of every `.png` name, in listing order,
      one ID per name. */
  function PngIds(listing: seq<string>): (ids: seq<string>)
    ensures |ids| == |PngNames(listing)| <= |listing|
    ensures forall i :: 0 <= i < |ids| ==> ids[i] == SampleId(PngNames(listing)[i])
    ensures forall id :: id in ids <==> exists f :: f in listing && EndsWith(f, PNG) && SampleId(f) == id
  {
    if |listing| == 0 then []
    else
      var rest := PngIds(listing[1..]);
      assert forall f :: f in listing <==> f == listing[0] || f in listing[1..];
      if EndsWith(listing[0], PNG) then
        assert PngNames(listing) == [listing[0]] + PngNames(listing[1..]);
        [SampleId(listing[0])] + rest
      else
        assert PngNames(listing) == PngNames(listing[1..]);
        rest
  }

  /** `load_local_images`, given whether the image directory exists and the
      names `os.listdir` returns. */
  function LoadLocalImages(dirExists: bool, listing: seq<string>): (ids: seq<string>)
    ensures !dirExists ==> ids == []
    ensures Sorted(ids)
    ensures dirExists ==> multiset(ids) == multiset(PngIds(listing))
    ensures forall id :: id in ids <==>
              dirExists && exists f :: f in listing && EndsWith(f, PNG) && SampleId(f) == id
  {
    if !dirExists then [] else
      var ids := Sort(PngIds(listing));
      assert forall id :: id in ids <==> id in PngIds(listing) by {
        forall id
          ensures id in ids <==> id in PngIds(listing)
        {
          assert id in ids <==> id in multiset(ids);
          assert id in PngIds(listing) <==> id in multiset(PngIds(listing));
        }
      }
      ids
  }

  /** The ID list is the one Python's `sorted` returns: the only sorted
      arrangement of the scanned IDs. */
  lemma LoadLocalImagesIsSortedOrder(listing: seq<string>, ids: seq<string>)
    requires Sorted(ids) && multiset(ids) == multiset(PngIds(listing))
    ensures LoadLocalImages(true, listing) == ids
  {
    SortedPermutationUnique(LoadLocalImages(true, listing), ids);
  }
}
