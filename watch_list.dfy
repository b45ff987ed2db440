/**
 * The edits gnome-extension/prefs.js makes to the `monitored-containers` list:
 * the add button (trim, ignore an empty name, append unless already present),
 * a row's remove button (filter every occurrence out), and "Import from Docker"
 * (merge the names `docker ps --all --format '{{.Names}}'` prints into the list,
 * first occurrence first, without duplicates). The settings store is the list
 * passed in and the list returned.
 */
module WatchList {
  import opened Text
  import opened Subprocess

  /** No name occurs twice. */
  ghost predicate NoDuplicates(s: seq<string>) {
    forall i, j :: 0 <= i < j < |s| ==> s[i] != s[j]
  }

  /** Every occurrence of `y` in `s` comes after some occurrence of `x`: `x` is first
      seen before `y`. */
  ghost predicate SeenBefore(s: seq<string>, x: string, y: string) {
    forall k :: 0 <= k < |s| && s[k] == y ==> x in s[..k]
  }

  // ---------------------------------------------------------------------------
  // Add

  /** The list after `if (!containers.includes(name)) containers.push(name)`. */
  function Appended(containers: seq<string>, name: string): (r: seq<string>)
    ensures name in r
    ensures |containers| <= |r| && r[..|containers|] == containers
    ensures forall x :: x in r <==> x in containers || x == name
    ensures name in containers ==> r == containers
    ensures name !in containers ==> r == containers + [name]
  {
    if name in containers then containers else containers + [name]
  }

  /** The add button's handler: the entry's text is trimmed; an empty name leaves both
      the list and the entry as they are; otherwise the name is appended unless present
      and the entry is cleared. Returns the list written back and the entry's text. */
  method AddClicked(containers: seq<string>, entryText: string)
    returns (updated: seq<string>, entryAfter: string)
    ensures Trim(entryText) == [] ==> updated == containers && entryAfter == entryText
    ensures Trim(entryText) != [] ==> updated == Appended(containers, Trim(entryText)) && entryAfter == []
  {
    var name := Trim(entryText);
    if |name| == 0 {
      return containers, entryText;
    }

    updated := containers;
    if name !in updated {
      updated := updated + [name];
    }
    entryAfter := "";
  }

  /** Adding the same name again changes nothing. */
  lemma AppendedIdempotent(containers: seq<string>, name: string)
    ensures Appended(Appended(containers, name), name) == Appended(containers, name)
  {
  }

  /** Adding keeps a duplicate-free list duplicate-free. */
  lemma AppendedNoDuplicates(containers: seq<string>, name: string)
    requires NoDuplicates(containers)
    ensures NoDuplicates(Appended(containers, name))
  {
  }

  /** The name that is added has no space at either end and is not empty. */
  lemma AddedNameTrimmed(entryText: string)
    requires Trim(entryText) != []
    ensures !IsJsSpace(Trim(entryText)[0]) && !IsJsSpace(Trim(entryText)[|Trim(entryText)| - 1])
  {
    TrimMeaning(entryText);
  }

  // ---------------------------------------------------------------------------
  // Remove

  /** `current.filter(c => c !== name)`. */
  function Without(current: seq<string>, name: string): (r: seq<string>)
    ensures name !in r
    ensures forall x :: x in r <==> x in current && x != name
    ensures multiset(r) == multiset(current)[name := 0]
    ensures name !in current ==> r == current
  {
    if current == [] then []
    else
      var rest := Without(current[1..], name);
      assert current == [current[0]] + current[1..];
      if current[0] == name then rest else [current[0]] + rest
  }

  /** The names left keep their order: the filter distributes over concatenation. */
  lemma {:induction false} WithoutConcat(a: seq<string>, b: seq<string>, name: string)
    ensures Without(a + b, name) == Without(a, name) + Without(b, name)
  {
    if a == [] {
      assert a + b == b;
    } else {
      assert (a + b)[0] == a[0];
      assert (a + b)[1..] == a[1..] + b;
      WithoutConcat(a[1..], b, name);
    }
  }

  /** Removing keeps a duplicate-free list duplicate-free. */
  lemma {:induction false} WithoutNoDuplicates(current: seq<string>, name: string)
    requires NoDuplicates(current)
    ensures NoDuplicates(Without(current, name))
  {
    if current != [] {
      WithoutNoDuplicates(current[1..], name);
      assert current[0] !in current[1..];
    }
  }

  // ---------------------------------------------------------------------------
  // Import

  /** `[...new Set(s)]`: each element once, in the order a `Set` first sees it. */
  function Dedup(s: seq<string>): (r: seq<string>)
    ensures NoDuplicates(r)
    ensures forall x :: x in r <==> x in s
    ensures |r| <= |s|
  {
    if s == [] then []
    else
      var d := Dedup(s[..|s| - 1]);
      var last := s[|s| - 1];
      assert forall x :: x in s <==> x in s[..|s| - 1] || x == last by {
        assert s == s[..|s| - 1] + [last];
      }
      if last in d then d else d + [last]
  }

  /** `[...new Set([...current, ...names])]`. */
  function Merge(current: seq<string>, names: seq<string>): (r: seq<string>)
    ensures NoDuplicates(r)
    ensures forall x :: x in r <==> x in current || x in names
  {
    Dedup(current + names)
  }

  /** The names an import reads: `stdout.trim().split('\n').filter(n => n.length > 0)`;
      each name is taken as it is, without trimming. */
  function ImportedNames(stdout: string): seq<string>
  {
    NonEmptyLines(stdout)
  }

  /** The end of one `_importFromDocker`: only a successful exit changes the list. */
  function Import(current: seq<string>, outcome: Outcome): (r: seq<string>)
    ensures !outcome.Succeeded() ==> r == current
    ensures outcome.Succeeded() ==> NoDuplicates(r)
    ensures outcome.Succeeded() ==>
      forall x :: x in r <==> x in current || x in ImportedNames(outcome.stdout)
  {
    if outcome.Succeeded() then Merge(current, ImportedNames(outcome.stdout)) else current
  }

  /** Each element sits at the position of its first occurrence: of two elements of
      the result, the earlier one was seen first. */
  lemma {:induction false} DedupOrder(s: seq<string>)
    ensures forall i, j :: 0 <= i < j < |Dedup(s)| ==> SeenBefore(s, Dedup(s)[i], Dedup(s)[j])
  {
    if s != [] {
      var init, last := s[..|s| - 1], s[|s| - 1];
      var d := Dedup(init);
      DedupOrder(init);
      forall i, j | 0 <= i < j < |Dedup(s)| ensures SeenBefore(s, Dedup(s)[i], Dedup(s)[j]) {
        var x, y := Dedup(s)[i], Dedup(s)[j];
        assert x == d[i] && x in init;
        forall k | 0 <= k < |s| && s[k] == y ensures x in s[..k] {
          if k < |s| - 1 {
            assert s[..k] == init[..k];
            assert init[k] == y;
            assert y in d;
            assert j < |d|;
            assert SeenBefore(init, d[i], d[j]);
          } else {
            assert s[..k] == init;
          }
        }
      }
    }
  }

  /** A duplicate-free list is its own dedup. */
  lemma {:induction false} DedupOfNoDuplicates(s: seq<string>)
    requires NoDuplicates(s)
    ensures Dedup(s) == s
  {
    if s != [] {
      var init := s[..|s| - 1];
      DedupOfNoDuplicates(init);
      assert s[|s| - 1] !in init;
      assert init + [s[|s| - 1]] == s;
    }
  }

  /** Appending names the list already holds adds nothing. */
  lemma {:induction false} DedupAbsorbs(a: seq<string>, b: seq<string>)
    requires NoDuplicates(a)
    requires forall x :: x in b ==> x in a
    ensures Dedup(a + b) == a
  {
    if b == [] {
      assert a + b == a;
      DedupOfNoDuplicates(a);
    } else {
      var init := b[..|b| - 1];
      assert (a + b)[..|a + b| - 1] == a + init;
      assert (a + b)[|a + b| - 1] == b[|b| - 1];
      DedupAbsorbs(a, init);
    }
  }

  /** The dedup of a longer list starts with the dedup of its prefix. */
  lemma {:induction false} DedupPrefix(a: seq<string>, b: seq<string>)
    ensures |Dedup(a)| <= |Dedup(a + b)| && Dedup(a + b)[..|Dedup(a)|] == Dedup(a)
  {
    if b == [] {
      assert a + b == a;
    } else {
      var init := b[..|b| - 1];
      assert (a + b)[..|a + b| - 1] == a + init;
      DedupPrefix(a, init);
    }
  }

  /** Import merge: a duplicate-free list stays as it is, in front, and the new names
      follow in the order they were first seen. */
  lemma MergeKeepsCurrent(current: seq<string>, names: seq<string>)
    requires NoDuplicates(current)
    ensures |current| <= |Merge(current, names)|
    ensures Merge(current, names)[..|current|] == current
  {
    DedupPrefix(current, names);
    DedupOfNoDuplicates(current);
  }

  /** Import merge order: of two names in the merged list, the earlier one occurs
      first in `current ++ names`. */
  lemma MergeOrder(current: seq<string>, names: seq<string>)
    ensures forall i, j :: 0 <= i < j < |Merge(current, names)| ==>
      SeenBefore(current + names, Merge(current, names)[i], Merge(current, names)[j])
  {
    DedupOrder(current + names);
  }

  /** Importing the same names a second time changes nothing. */
  lemma MergeIdempotent(current: seq<string>, names: seq<string>)
    ensures Merge(Merge(current, names), names) == Merge(current, names)
  {
    DedupAbsorbs(Merge(current, names), names);
  }

  /** `["a","c"]` merged with `["b","a","d"]`: the new names follow in first-seen order. */
  lemma MergeExample()
    ensures Merge(["a", "c"], ["b", "a", "d"]) == ["a", "c", "b", "d"]
  {
    var s1 := ["a"];
    var s2 := s1 + ["c"];
    var s3 := s2 + ["b"];
    var s4 := s3 + ["a"];
    var s5 := s4 + ["d"];
    assert s5 == ["a", "c"] + ["b", "a", "d"];
    assert s1[..0] == [] && s2[..1] == s1 && s3[..2] == s2 && s4[..3] == s3 && s5[..4] == s4;
    assert Dedup(s1) == ["a"];
    assert Dedup(s2) == ["a", "c"];
    assert Dedup(s3) == ["a", "c", "b"];
    assert Dedup(s4) == ["a", "c", "b"];
  }
}
