/**
 * Azure resource ids: `/subscriptions/{id}/resourceGroups/{group}/...`.
 * The scripts read the resource group back as the fifth `/`-separated
 * piece of an id.
 */
module AzureIds {
  import opened Wrappers
  import opened Strings

  /** `id.split("/")[4]`: IndexError when the id has fewer than five pieces. */
  function ResourceGroup(id: string): Result<string>
  {
    PyIndex(Split(id, '/'), 4)
  }

  /** Splitting on `c` gives one more piece than `s` has occurrences of `c`. */
  lemma {:induction false} SplitCount(s: string, c: char)
    ensures |Split(s, c)| == multiset(s)[c] + 1
  {
    if s != [] {
      assert s == [s[0]] + s[1..];
      SplitCount(s[1..], c);
    }
  }

  /** The resource group can be read exactly when the id holds at least four `/`. */
  lemma ResourceGroupNeedsFourSlashes(id: string)
    ensures ResourceGroup(id).Ok? <==> multiset(id)['/'] >= 4
    ensures ResourceGroup(id).Err? ==> ResourceGroup(id).error == IndexError
  {
    SplitCount(id, '/');
  }

  /**
   * An id whose pieces contain no `/` gives back its fifth piece as the
   * resource group, whatever follows it.
   */
  lemma ResourceGroupOfPieces(pieces: seq<string>)
    requires |pieces| >= 5
    requires forall i | 0 <= i < |pieces| :: '/' !in pieces[i]
    ensures ResourceGroup(Join(pieces, "/")) == Ok(pieces[4])
  {
    SplitJoin(pieces, '/');
  }
}
