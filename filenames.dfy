/** Choosing which files of the folder listing go into the grid (create_grid.py, lines 28-34):
    the extension filter, the mandatory centre file, its removal and the truncation. */
module FileNames {
  import opened Layout

  /** The one file name that is placed in the centre cell. */
  const CentreName: string := "pfp.jpg"

  /** Lower-casing of one character; only the ASCII letters A-Z are mapped. */
  function LowerChar(c: char): (r: char)
    ensures !('A' <= r <= 'Z')
    ensures !('A' <= c <= 'Z') ==> r == c
    ensures 'A' <= c <= 'Z' ==> 'a' <= r <= 'z' && r as int - 'a' as int == c as int - 'A' as int
  {
    if 'A' <= c <= 'Z' then (c as int - 'A' as int + 'a' as int) as char else c
  }

  /** str.lower, character by character. */
  function Lower(s: string): (r: string)
    ensures |r| == |s|
    ensures forall i :: 0 <= i < |s| ==> r[i] == LowerChar(s[i])
  {
    if s == [] then [] else [LowerChar(s[0])] + Lower(s[1..])
  }

  /** str.endswith for a single suffix: the last |suffix| characters of s are the suffix. */
  predicate EndsWith(s: string, suffix: string): (b: bool)
    ensures b <==> |suffix| <= |s| && forall i :: 0 <= i < |suffix| ==> s[|s| - |suffix| + i] == suffix[i]
  {
    |suffix| <= |s| && s[|s| - |suffix|..] == suffix
  }

  /** The listing filter: the lower-cased name ends with "png", "jpg" or "jpeg".
      There is no check for a dot before the extension. */
  predicate IsImageName(f: string): (b: bool)
    ensures b ==> 3 <= |f|
  {
    var lower := Lower(f);
    EndsWith(lower, "png") || EndsWith(lower, "jpg") || EndsWith(lower, "jpeg")
  }

  /** The list comprehension over the listing: the image names, in listing order. */
  function FilterImages(names: seq<string>): (r: seq<string>)
    ensures |r| <= |names|
  {
    if names == [] then []
    else (if IsImageName(names[0]) then [names[0]] else []) + FilterImages(names[1..])
  }

  /** Position of the first occurrence of x in s. */
  function IndexOf<T(==)>(s: seq<T>, x: T): (i: nat)
    requires x in s
    ensures i < |s| && s[i] == x && x !in s[..i]
  {
    if s[0] == x then 0 else 1 + IndexOf(s[1..], x)
  }

  /** list.remove: deletes the first occurrence of x, which must be present. The entries
      that stay keep their order: entry k of the result is entry Slot(k, i) of s, the same
      skip past index i that the grid makes past its centre cell. */
  function RemoveFirst<T(==)>(s: seq<T>, x: T): (r: seq<T>)
    requires x in s
    ensures |r| == |s| - 1
    ensures multiset(r) == multiset(s) - multiset{x}
    ensures exists i :: 0 <= i < |s| && s[i] == x && x !in s[..i] && r == s[..i] + s[i + 1..]
    ensures forall k :: 0 <= k < |r| ==> r[k] == s[Slot(k, IndexOf(s, x))]
  {
    var i := IndexOf(s, x);
    Splice(s, i);
    s[..i] + s[i + 1..]
  }

  /** Deleting entry i: one entry fewer, one copy of s[i] fewer, and the others in order. */
  lemma Splice<T>(s: seq<T>, i: nat)
    requires i < |s|
    ensures |s[..i] + s[i + 1..]| == |s| - 1
    ensures multiset(s[..i] + s[i + 1..]) == multiset(s) - multiset{s[i]}
    ensures forall k :: 0 <= k < |s| - 1 ==> (s[..i] + s[i + 1..])[k] == s[Slot(k, i)]
  {
    assert s == s[..i] + [s[i]] + s[i + 1..];
  }

  /** A slice s[:cap]: the first min(len(s), cap) entries, in order. */
  function Truncate<T>(s: seq<T>, cap: nat): (r: seq<T>)
    ensures |r| == if |s| <= cap then |s| else cap
    ensures r == s[..|r|]
  {
    if |s| <= cap then s else s[..cap]
  }

  /** The non-centre files of a listing, or None when the centre file is missing
      (the source raises FileNotFoundError then). Otherwise they are the image names of the
      listing without the first "pfp.jpg", in order, as many as fill the non-centre cells. */
  function SelectFiles(names: seq<string>, gridSize: nat): (r: Option<seq<string>>)
    requires gridSize >= 1
    ensures r.None? <==> CentreName !in FilterImages(names)
    ensures r.Some? ==> var images := FilterImages(names);
      |r.value| == (if |images| - 1 <= Cells(gridSize) - 1 then |images| - 1 else Cells(gridSize) - 1)
    ensures r.Some? ==> var images := FilterImages(names);
      forall k :: 0 <= k < |r.value| ==> r.value[k] == images[Slot(k, IndexOf(images, CentreName))]
  {
    var images := FilterImages(names);
    if CentreName !in images then None
    else Some(Truncate(RemoveFirst(images, CentreName), Cells(gridSize) - 1))
  }

  datatype Option<T> = None | Some(value: T)

  /** The filter keeps names in listing order: filtering a concatenation concatenates the results. */
  lemma {:induction false} FilterAppend(a: seq<string>, b: seq<string>)
    ensures FilterImages(a + b) == FilterImages(a) + FilterImages(b)
  {
    if a == [] {
      assert a + b == b;
    } else {
      assert (a + b)[1..] == a[1..] + b;
      FilterAppend(a[1..], b);
    }
  }

  /** The filter keeps exactly the image names of the listing. */
  lemma {:induction false} FilterMembership(names: seq<string>, f: string)
    ensures f in FilterImages(names) <==> f in names && IsImageName(f)
  {
    if names != [] {
      assert names == [names[0]] + names[1..];
      FilterMembership(names[1..], f);
    }
  }

  /** A one-name listing keeps its name exactly when it is an image name. */
  lemma FilterSingle(f: string)
    ensures FilterImages([f]) == if IsImageName(f) then [f] else []
  {
    assert [f][1..] == [];
  }

  /** The first occurrence in a concatenation lies in the first part when that part holds one. */
  lemma {:induction false} IndexOfAppend<T>(a: seq<T>, b: seq<T>, x: T)
    requires x in a
    ensures IndexOf(a + b, x) == IndexOf(a, x)
  {
    assert (a + b)[0] == a[0];
    if a[0] != x {
      assert (a + b)[1..] == a[1..] + b;
      IndexOfAppend(a[1..], b, x);
    }
  }

  /** Removing the first occurrence from a concatenation whose first part holds it
      leaves the second part alone. */
  lemma RemoveFirstAppend<T>(a: seq<T>, b: seq<T>, x: T)
    requires x in a
    ensures RemoveFirst(a + b, x) == RemoveFirst(a, x) + b
  {
    var i := IndexOf(a, x);
    IndexOfAppend(a, b, x);
    assert (a + b)[..i] == a[..i];
    assert (a + b)[i + 1..] == a[i + 1..] + b;
  }

  /** Every selected file is an image name from the listing. */
  lemma SelectedAreImages(names: seq<string>, gridSize: nat)
    requires gridSize >= 1 && CentreName in FilterImages(names)
    ensures forall f :: f in SelectFiles(names, gridSize).value ==> f in names && IsImageName(f)
  {
    var others := RemoveFirst(FilterImages(names), CentreName);
    var r := SelectFiles(names, gridSize).value;
    forall f | f in r ensures f in names && IsImageName(f) {
      assert f in multiset(others);
      FilterMembership(names, f);
    }
  }

  /** Cutting a concatenation no longer than its first part ignores the second part. */
  lemma TruncateAppend<T>(a: seq<T>, b: seq<T>, cap: nat)
    requires cap <= |a|
    ensures Truncate(a + b, cap) == Truncate(a, cap)
  {
    assert (a + b)[..cap] == a[..cap];
  }

  /** Names beyond what fills the grid are dropped: appending more names to a listing that
      already fills the grid (and holds the centre file) does not change the selection. */
  lemma TruncationIgnoresExtras(names: seq<string>, extra: seq<string>, gridSize: nat)
    requires gridSize >= 1 && CentreName in FilterImages(names)
    requires |FilterImages(names)| - 1 >= Cells(gridSize) - 1
    ensures SelectFiles(names + extra, gridSize) == SelectFiles(names, gridSize)
  {
    var a, b := FilterImages(names), FilterImages(extra);
    var cap := Cells(gridSize) - 1;
    FilterAppend(names, extra);
    RemoveFirstAppend(a, b, CentreName);
    TruncateAppend(RemoveFirst(a, CentreName), b, cap);
    assert CentreName in FilterImages(names + extra);
  }

  /** With a single "pfp.jpg" in the listing, the centre file is never also placed as a tile. */
  lemma CentreNotAmongOthers(names: seq<string>, gridSize: nat)
    requires gridSize >= 1 && CentreName in FilterImages(names)
    requires multiset(names)[CentreName] == 1
    ensures CentreName !in SelectFiles(names, gridSize).value
  {
    var images := FilterImages(names);
    var others := RemoveFirst(images, CentreName);
    FilterCount(names, CentreName);
    assert multiset(others)[CentreName] == 0;
    assert CentreName !in others;
    assert SelectFiles(names, gridSize).value == others[..|SelectFiles(names, gridSize).value|];
    assert forall f :: f in others[..|SelectFiles(names, gridSize).value|] ==> f in others;
  }

  /** The filter keeps every copy of an image name and drops every copy of any other name. */
  lemma {:induction false} FilterCount(names: seq<string>, f: string)
    ensures multiset(FilterImages(names))[f] == if IsImageName(f) then multiset(names)[f] else 0
  {
    if names != [] {
      assert names == [names[0]] + names[1..];
      FilterCount(names[1..], f);
    }
  }

  /** No dot is needed before the extension. */
  lemma NoDotNeeded()
    ensures IsImageName("xpng")
  {
    assert Lower("xpng")[1..] == "png";
  }

  /** The extension is matched whatever its case. */
  lemma UpperCaseExtension()
    ensures IsImageName("a.JPEG")
  {
    assert Lower("a.JPEG")[2..] == "jpeg";
  }

  /** Other extensions are dropped. */
  lemma OtherExtensionDropped()
    ensures !IsImageName("a.gif")
  {
    assert Lower("a.gif")[2..] == "gif";
  }

  /** The centre file must be spelt exactly "pfp.jpg": an upper-case "PFP.JPG" passes the
      filter, yet the selection fails. */
  lemma CentreNameIsCaseSensitive()
    ensures IsImageName("PFP.JPG")
    ensures SelectFiles(["PFP.JPG"], 3).None?
  {
    assert Lower("PFP.JPG")[4..] == "jpg";
    FilterSingle("PFP.JPG");
  }

  /** Lower-casing twice is lower-casing once. */
  lemma LowerIdempotent(s: string)
    ensures Lower(Lower(s)) == Lower(s)
  {
  }

  /** The extension test ignores case: a name and its lower-cased form pass or fail together. */
  lemma ImageNameIgnoresCase(f: string)
    ensures IsImageName(Lower(f)) == IsImageName(f)
  {
    LowerIdempotent(f);
  }

  /** A listing without repeated names (as a directory listing is) gives a filtered list
      without repeated names. */
  lemma {:induction false} FilterDistinct(names: seq<string>)
    requires Distinct(names)
    ensures Distinct(FilterImages(names))
  {
    if names != [] {
      var tail := names[1..];
      assert Distinct(tail) by {
        forall i, j | 0 <= i < j < |tail| ensures tail[i] != tail[j] {
          assert tail[i] == names[i + 1] && tail[j] == names[j + 1];
        }
      }
      FilterDistinct(tail);
      FilterMembership(tail, names[0]);
      assert names[0] !in tail by {
        forall j | 0 <= j < |tail| ensures tail[j] != names[0] {
          assert tail[j] == names[j + 1];
        }
      }
      var rest := FilterImages(tail);
      if IsImageName(names[0]) {
        var r := [names[0]] + rest;
        forall i, j | 0 <= i < j < |r| ensures r[i] != r[j] {
          assert r[j] == rest[j - 1];
          if i > 0 {
            assert r[i] == rest[i - 1];
          }
        }
      }
    }
  }

  /** Removing the first copy of x from a list without repetitions keeps it without
      repetitions and leaves no copy of x behind. */
  lemma RemoveFirstDistinct<T>(s: seq<T>, x: T)
    requires Distinct(s) && x in s
    ensures Distinct(RemoveFirst(s, x)) && x !in RemoveFirst(s, x)
  {
    var r := RemoveFirst(s, x);
    var c := IndexOf(s, x);
    forall a, b | 0 <= a < b < |r| ensures r[a] != r[b] {
      SlotStrictlyIncreasing(a, b, c);
    }
    forall k | 0 <= k < |r| ensures r[k] != x {
      assert r[k] == s[Slot(k, c)];
    }
  }

  /** From a listing without repeated names, the selected files are all different and
      "pfp.jpg" is not among them. */
  lemma SelectedDistinct(names: seq<string>, gridSize: nat)
    requires gridSize >= 1 && Distinct(names) && CentreName in FilterImages(names)
    ensures Distinct(SelectFiles(names, gridSize).value)
    ensures CentreName !in SelectFiles(names, gridSize).value
  {
    FilterDistinct(names);
    var others := RemoveFirst(FilterImages(names), CentreName);
    RemoveFirstDistinct(FilterImages(names), CentreName);
    var r := SelectFiles(names, gridSize).value;
    assert r == others[..|r|];
    forall k | 0 <= k < |r| ensures r[k] == others[k] && r[k] != CentreName {
    }
  }
}
