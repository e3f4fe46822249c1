/**
 * The values of the quote manager: the `{text, category}` record, the input
 * validation of "add quote" (trim both fields, reject an empty one), and the
 * dedup filter that loading and importing use to decide which candidate
 * records to append.
 */
module Quotes {

  datatype Option<T> = None | Some(value: T)

  /** One entry of the quote list. */
  datatype Quote = Quote(text: string, category: string)

  /**
   * The two records the in-memory list starts with: two distinct records,
   * each with a non-blank category.
   */
  function Seed(): (r: seq<Quote>)
    ensures |r| == 2 && NoDuplicates(r)
    ensures forall q :: q in r ==> !AllSpace(q.category)
  {
    var first := Quote("The best way to get started is to quit talking and begin doing.", "Motivation");
    var second := Quote("Life is what happens when you're busy making other plans.", "Life");
    assert first.category[0] == 'M';
    assert second.category[0] == 'L';
    assert first.category != second.category;
    [first, second]
  }

  // ---------------------------------------------------------------------
  // Trimming
  // ---------------------------------------------------------------------

  /**
   * The code points `String.prototype.trim` strips: ECMAScript WhiteSpace
   * (TAB, VT, FF, ZWNBSP and the Unicode category Zs) and LineTerminator
   * (LF, CR, LS, PS).
   */
  predicate IsSpace(c: char): (space: bool)
    ensures c == ' ' || c == '\t' || c == '\n' || c == '\r' ==> space
    ensures '0' <= c <= '9' || 'A' <= c <= 'Z' || 'a' <= c <= 'z' ==> !space
  {
    || c == '\t' || c == '\U{000B}' || c == '\U{000C}' || c == '\U{FEFF}'
    || c == ' ' || c == '\U{00A0}' || c == '\U{1680}'
    || ('\U{2000}' <= c <= '\U{200A}')
    || c == '\U{202F}' || c == '\U{205F}' || c == '\U{3000}'
    || c == '\n' || c == '\r' || c == '\U{2028}' || c == '\U{2029}'
  }

  /** Every character of `s` at an index in `[i, j)` is whitespace. */
  predicate SpaceBetween(s: string, i: int, j: int)
    requires 0 <= i <= j <= |s|
  {
    forall k :: i <= k < j ==> IsSpace(s[k])
  }

  predicate AllSpace(s: string)
  {
    SpaceBetween(s, 0, |s|)
  }

  /**
   * The first index at or after `i` that does not hold whitespace, or `|s|`:
   * where the text starts once leading whitespace is skipped.
   */
  function TextStart(s: string, i: nat): (j: nat)
    requires i <= |s|
    ensures i <= j <= |s| && SpaceBetween(s, i, j)
    ensures j == |s| || !IsSpace(s[j])
    decreases |s| - i
  {
    if i < |s| && IsSpace(s[i]) then TextStart(s, i + 1) else i
  }

  /**
   * The last index down from `j`, but not below `lo`, that follows a
   * non-space, or `lo`: where the text ends once trailing whitespace is
   * skipped.
   */
  function TextEnd(s: string, lo: nat, j: nat): (k: nat)
    requires lo <= j <= |s|
    ensures lo <= k <= j && SpaceBetween(s, k, j)
    ensures k == lo || !IsSpace(s[k - 1])
  {
    if lo < j && IsSpace(s[j - 1]) then TextEnd(s, lo, j - 1) else j
  }

  /**
   * `s.trim()`: the slice of `s` left after removing whitespace from both
   * ends. It has whitespace on neither end, and it is empty exactly when `s`
   * holds nothing but whitespace.
   */
  function Trim(s: string): (r: string)
    ensures |r| <= |s|
    ensures exists a :: 0 <= a <= |s| - |r| && r == s[a..a + |r|] && SpaceBetween(s, 0, a) && SpaceBetween(s, a + |r|, |s|)
    ensures r == [] || (!IsSpace(r[0]) && !IsSpace(r[|r| - 1]))
    ensures r == [] <==> AllSpace(s)
  {
    var a := TextStart(s, 0);
    var b := TextEnd(s, a, |s|);
    assert a < |s| ==> a < b;
    s[a..b]
  }

  /** Trimming twice is trimming once. */
  lemma TrimIdempotent(s: string)
    ensures Trim(Trim(s)) == Trim(s)
  {
  }

  /**
   * The check `if (text && category)` on the trimmed inputs: the record to
   * append, or None when either field is blank after trimming.
   */
  function Validate(text: string, category: string): (r: Option<Quote>)
    ensures r.Some? <==> !AllSpace(text) && !AllSpace(category)
    ensures r.Some? ==> r.value.text == Trim(text) && r.value.category == Trim(category)
    ensures r.Some? ==> r.value.text != [] && r.value.category != []
  {
    var t, c := Trim(text), Trim(category);
    if t != [] && c != [] then Some(Quote(t, c)) else None
  }

  // ---------------------------------------------------------------------
  // The dedup filter shared by loading and importing
  // ---------------------------------------------------------------------

  /** The `some` callback: two records agree on text and on category, which is record equality. */
  predicate SameQuote(a: Quote, b: Quote): (same: bool)
    ensures same <==> a == b
  {
    a.text == b.text && a.category == b.category
  }

  /** `list.some(orig => SameQuote(orig, q))`, which is membership of `q` in `list`. */
  predicate Present(list: seq<Quote>, q: Quote): (found: bool)
    ensures found <==> q in list
  {
    exists i :: 0 <= i < |list| && SameQuote(list[i], q)
  }

  lemma PresentInAppend(a: seq<Quote>, b: seq<Quote>, q: Quote)
    ensures Present(a, q) ==> Present(a + b, q)
    ensures q in b ==> Present(a + b, q)
  {
    if Present(a, q) {
      var i :| 0 <= i < |a| && SameQuote(a[i], q);
      assert (a + b)[i] == a[i];
    }
    if q in b {
      var j :| 0 <= j < |b| && b[j] == q;
      assert (a + b)[|a| + j] == q;
    }
  }

  /**
   * `cands.filter(q => !pre.some(orig => SameQuote(orig, q)))`: the candidates
   * that match no record of `pre`, in their original order. Every candidate is
   * tested against `pre` alone, never against the other candidates.
   */
  function Unmatched(pre: seq<Quote>, cands: seq<Quote>): (r: seq<Quote>)
    ensures |r| <= |cands|
    ensures forall q :: q in r ==> q in cands && !Present(pre, q)
  {
    if cands == [] then []
    else (if Present(pre, cands[0]) then [] else [cands[0]]) + Unmatched(pre, cands[1..])
  }

  /** Every candidate that matches no record of `pre` is kept. */
  lemma {:induction false} UnmatchedComplete(pre: seq<Quote>, cands: seq<Quote>, q: Quote)
    requires q in cands && !Present(pre, q)
    ensures q in Unmatched(pre, cands)
  {
    if cands[0] != q {
      UnmatchedComplete(pre, cands[1..], q);
    }
  }

  /** One step of the filter: the first candidate, then the rest. */
  lemma UnmatchedCons(pre: seq<Quote>, c: Quote, rest: seq<Quote>)
    ensures Unmatched(pre, [c] + rest) == (if Present(pre, c) then [] else [c]) + Unmatched(pre, rest)
  {
    var cands := [c] + rest;
    assert cands[0] == c && cands[1..] == rest;
  }

  /** The filter works candidate by candidate, so it distributes over concatenation. */
  lemma {:induction false} UnmatchedAppend(pre: seq<Quote>, a: seq<Quote>, b: seq<Quote>)
    ensures Unmatched(pre, a + b) == Unmatched(pre, a) + Unmatched(pre, b)
  {
    if a != [] {
      var c, rest := a[0], a[1..];
      assert a == [c] + rest;
      assert a + b == [c] + (rest + b);
      UnmatchedCons(pre, c, rest + b);
      UnmatchedCons(pre, c, rest);
      UnmatchedAppend(pre, rest, b);
      ConcatAssoc(if Present(pre, c) then [] else [c], Unmatched(pre, rest), Unmatched(pre, b));
    } else {
      assert a + b == b;
    }
  }

  lemma ConcatAssoc<T>(x: seq<T>, y: seq<T>, z: seq<T>)
    ensures x + (y + z) == (x + y) + z
  {
  }

  /**
   * How often a record is appended: never if it matches a pre-existing
   * record, otherwise exactly as often as it occurs among the candidates
   * (copies inside one batch are not collapsed).
   */
  lemma {:induction false} UnmatchedCount(pre: seq<Quote>, cands: seq<Quote>, q: Quote)
    ensures multiset(Unmatched(pre, cands))[q] == if Present(pre, q) then 0 else multiset(cands)[q]
  {
    if cands != [] {
      var c, rest := cands[0], cands[1..];
      assert cands == [c] + rest;
      UnmatchedCons(pre, c, rest);
      UnmatchedCount(pre, rest, q);
    }
  }

  /** The merge changes the list exactly when some candidate matches no pre-existing record. */
  lemma {:induction false} UnmatchedEmptyIff(pre: seq<Quote>, cands: seq<Quote>)
    ensures Unmatched(pre, cands) == [] <==> forall q :: q in cands ==> Present(pre, q)
  {
    var r := Unmatched(pre, cands);
    if r != [] {
      assert r[0] in r;
    } else {
      forall q | q in cands ensures Present(pre, q) {
        if !Present(pre, q) {
          UnmatchedComplete(pre, cands, q);
        }
      }
    }
  }

  /** Merging the same batch a second time appends nothing. */
  lemma MergeIdempotent(pre: seq<Quote>, cands: seq<Quote>)
    ensures Unmatched(pre + Unmatched(pre, cands), cands) == []
  {
    var added := Unmatched(pre, cands);
    forall q | q in cands
      ensures Present(pre + added, q)
    {
      PresentInAppend(pre, added, q);
      if !Present(pre, q) {
        UnmatchedComplete(pre, cands, q);
      }
    }
    UnmatchedEmptyIff(pre + added, cands);
  }

  /** No two positions of `s` hold the same record. */
  predicate NoDuplicates(s: seq<Quote>)
  {
    forall i, j :: 0 <= i < j < |s| ==> s[i] != s[j]
  }

  /** The tail of a duplicate-free sequence is duplicate-free and lacks the head. */
  lemma NoDuplicatesTail(s: seq<Quote>)
    requires s != [] && NoDuplicates(s)
    ensures NoDuplicates(s[1..]) && s[0] !in s[1..]
  {
    var rest := s[1..];
    forall i, j | 0 <= i < j < |rest| ensures rest[i] != rest[j] {
      assert rest[i] == s[i + 1] && rest[j] == s[j + 1];
    }
    forall k | 0 <= k < |rest| ensures rest[k] != s[0] {
      assert rest[k] == s[k + 1];
    }
  }

  /** Putting a record that is not in a duplicate-free sequence in front of it keeps it duplicate-free. */
  lemma NoDuplicatesCons(c: Quote, u: seq<Quote>)
    requires c !in u && NoDuplicates(u)
    ensures NoDuplicates([c] + u)
  {
    var s := [c] + u;
    forall i, j | 0 <= i < j < |s| ensures s[i] != s[j] {
      assert s[j] == u[j - 1];
      if i > 0 {
        assert s[i] == u[i - 1];
      }
    }
  }

  lemma {:induction false} UnmatchedNoDuplicates(pre: seq<Quote>, cands: seq<Quote>)
    requires NoDuplicates(cands)
    ensures NoDuplicates(Unmatched(pre, cands))
  {
    if cands != [] {
      var c, rest := cands[0], cands[1..];
      NoDuplicatesTail(cands);
      UnmatchedNoDuplicates(pre, rest);
      assert cands == [c] + rest;
      UnmatchedCons(pre, c, rest);
      if !Present(pre, c) {
        NoDuplicatesCons(c, Unmatched(pre, rest));
      }
    }
  }

  /**
   * Merging keeps the list free of duplicates when neither the list nor the
   * batch has any.
   */
  lemma MergeNoDuplicates(pre: seq<Quote>, cands: seq<Quote>)
    requires NoDuplicates(pre) && NoDuplicates(cands)
    ensures NoDuplicates(pre + Unmatched(pre, cands))
  {
    var added := Unmatched(pre, cands);
    UnmatchedNoDuplicates(pre, cands);
    var s := pre + added;
    forall i, j | 0 <= i < j < |s| ensures s[i] != s[j] {
      if j >= |pre| && i < |pre| {
        assert s[j] == added[j - |pre|];
        assert s[j] in added;
        assert SameQuote(pre[i], s[i]);
      } else if i >= |pre| {
        assert s[i] == added[i - |pre|] && s[j] == added[j - |pre|];
      }
    }
  }

  /**
   * A batch holding the same new record twice appends it twice, so the
   * merged list does have a duplicate.
   */
  lemma BatchDuplicatesKept(pre: seq<Quote>, q: Quote)
    requires !Present(pre, q)
    ensures Unmatched(pre, [q, q]) == [q, q]
    ensures !NoDuplicates(pre + Unmatched(pre, [q, q]))
  {
    assert [q, q][1..] == [q];
    var s := pre + [q, q];
    assert s[|pre|] == s[|pre| + 1];
  }
}
