/** The total order that picks which of several same-id files keeps its id. */
module Collision {
  import opened Lex
  import opened Results
  import opened Sorting

  /** What the pick consults. `created` is the parsed instant; None is a degraded value. */
  datatype Member = Member(created: Option<int>, basename: Text, raw: Text, path: Text)

  /** A hash of whole-file bytes, SHA-256 in the program. */
  type Hash = Text -> Text

  ghost predicate Injective(sha: Hash)
  {
    forall x, y :: sha(x) == sha(y) ==> x == y
  }

  /** Older instant first with degraded before any, then basename, then hash, then path. */
  predicate KeepBefore(sha: Hash, a: Member, b: Member)
  {
    if a.created.Some? != b.created.Some? then a.created.None?
    else if a.created.Some? && a.created.value != b.created.value then a.created.value < b.created.value
    else if a.basename != b.basename then Less(a.basename, b.basename)
    else if sha(a.raw) != sha(b.raw) then Less(sha(a.raw), sha(b.raw))
    else Less(a.path, b.path)
  }

  lemma KeepBeforeAsymmetric(sha: Hash, a: Member, b: Member)
    requires KeepBefore(sha, a, b)
    ensures !KeepBefore(sha, b, a)
  {
    if Less(a.basename, b.basename) { Asymmetric(a.basename, b.basename); }
    if Less(sha(a.raw), sha(b.raw)) { Asymmetric(sha(a.raw), sha(b.raw)); }
    if Less(a.path, b.path) { Asymmetric(a.path, b.path); }
  }

  lemma KeepBeforeTransitive(sha: Hash, a: Member, b: Member, c: Member)
    requires KeepBefore(sha, a, b) && KeepBefore(sha, b, c)
    ensures KeepBefore(sha, a, c)
  {
    Chain(a.basename, b.basename, c.basename);
    Chain(sha(a.raw), sha(b.raw), sha(c.raw));
    Chain(a.path, b.path, c.path);
  }

  lemma Chain(a: Text, b: Text, c: Text)
    ensures Less(a, b) && Less(b, c) ==> Less(a, c) && a != c
  {
    if Less(a, b) && Less(b, c) {
      Transitive(a, b, c);
      Asymmetric(a, c);
    }
  }

  /** Only members that share their path, and agree on everything else, are left unordered. */
  lemma KeepBeforeTotal(sha: Hash, a: Member, b: Member)
    ensures KeepBefore(sha, a, b) || KeepBefore(sha, b, a) ||
            (a.path == b.path && a.basename == b.basename && a.created == b.created && sha(a.raw) == sha(b.raw))
  {
    Total(a.basename, b.basename);
    Total(sha(a.raw), sha(b.raw));
    Total(a.path, b.path);
  }
}
