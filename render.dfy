// The roster text of `generateListContent`: for each group a title line, then
// one line per character saying who owns it or that it is free. The functions
// here are the specification; `Roster.Store.GenerateListContent` is the loop.

module Render {
  import opened Text
  import opened Records

  /** One character of a roster group: its key, its emoji and an optional trailing note ("" when absent). */
  datatype Entry = Entry(key: string, emoji: string, extra: string)

  datatype Group = Group(title: string, names: seq<Entry>)

  /** The status text: the owner when the key is claimed, "N/A" otherwise.
      Pending applications play no part. */
  function Status(key: string, claims: map<string, Claim>): string
  {
    if key in claims then key + " » <@" + claims[key].userId + ">"
    else "**" + key + "** **» N/A**"
  }

  function EntryLine(e: Entry, claims: map<string, Claim>): string
  {
    e.emoji + " " + Status(e.key, claims) + e.extra + "\n"
  }

  function EntryLines(es: seq<Entry>, claims: map<string, Claim>): (r: seq<string>)
    ensures |r| == |es| && forall i :: 0 <= i < |es| ==> r[i] == EntryLine(es[i], claims)
  {
    seq(|es|, i requires 0 <= i < |es| => EntryLine(es[i], claims))
  }

  function GroupHeader(g: Group): string
  {
    "\n" + g.title + "\n\n"
  }

  function GroupText(g: Group, claims: map<string, Claim>): string
  {
    GroupHeader(g) + Concat(EntryLines(g.names, claims))
  }

  function GroupTexts(groups: seq<Group>, claims: map<string, Claim>): (r: seq<string>)
    ensures |r| == |groups| && forall i :: 0 <= i < |groups| ==> r[i] == GroupText(groups[i], claims)
  {
    seq(|groups|, i requires 0 <= i < |groups| => GroupText(groups[i], claims))
  }

  /** The whole roster body, group after group. */
  function ListContent(groups: seq<Group>, claims: map<string, Claim>): string
  {
    Concat(GroupTexts(groups, claims))
  }

  /** The lines of one more entry: the previous lines, then its line. */
  lemma EntryLinesSnoc(es: seq<Entry>, n: nat, claims: map<string, Claim>)
    requires n < |es|
    ensures Concat(EntryLines(es[..n + 1], claims)) == Concat(EntryLines(es[..n], claims)) + EntryLine(es[n], claims)
  {
    assert EntryLines(es[..n + 1], claims) == EntryLines(es[..n], claims) + [EntryLine(es[n], claims)];
    ConcatAppend(EntryLines(es[..n], claims), [EntryLine(es[n], claims)]);
    assert [EntryLine(es[n], claims)][..0] == [];
  }

  /** The roster of one more group: the previous roster, then its text. */
  lemma ListContentSnoc(groups: seq<Group>, n: nat, claims: map<string, Claim>)
    requires n < |groups|
    ensures ListContent(groups[..n + 1], claims) == ListContent(groups[..n], claims) + GroupText(groups[n], claims)
  {
    assert GroupTexts(groups[..n + 1], claims) == GroupTexts(groups[..n], claims) + [GroupText(groups[n], claims)];
  }

  /** Every key listed by some group. */
  ghost function ListedKeys(groups: seq<Group>): set<string>
  {
    set g, e | g in groups && e in g.names :: e.key
  }

  /** The two claim maps say the same about every key in `keys`. */
  ghost predicate SameOwners(keys: set<string>, c1: map<string, Claim>, c2: map<string, Claim>)
  {
    forall k :: k in keys ==> SameOwner(k, c1, c2)
  }

  /** The two claim maps say the same about `k`: claimed in both by the same user, or in neither. */
  ghost predicate SameOwner(k: string, c1: map<string, Claim>, c2: map<string, Claim>)
  {
    (k in c1 <==> k in c2) && (k in c1 ==> c1[k].userId == c2[k].userId)
  }

  /** The roster of a concatenation of group lists is the concatenation of the rosters. */
  lemma ListContentAppend(a: seq<Group>, b: seq<Group>, claims: map<string, Claim>)
    ensures ListContent(a + b, claims) == ListContent(a, claims) + ListContent(b, claims)
  {
    assert GroupTexts(a + b, claims) == GroupTexts(a, claims) + GroupTexts(b, claims);
    ConcatAppend(GroupTexts(a, claims), GroupTexts(b, claims));
  }

  /** The roster reads the claims map only at the listed keys, and only the
      owner of each: claim dates and claims of unlisted names do not show. */
  lemma ListContentReadsListedOwners(groups: seq<Group>, c1: map<string, Claim>, c2: map<string, Claim>)
    requires SameOwners(ListedKeys(groups), c1, c2)
    ensures ListContent(groups, c1) == ListContent(groups, c2)
  {
    forall i | 0 <= i < |groups|
      ensures GroupText(groups[i], c1) == GroupText(groups[i], c2)
    {
      forall e | e in groups[i].names
        ensures SameOwner(e.key, c1, c2)
      {
        assert e.key in ListedKeys(groups);
      }
      GroupTextReadsOwners(groups[i], c1, c2);
    }
    assert GroupTexts(groups, c1) == GroupTexts(groups, c2);
  }

  /** A group's text depends only on the owners of its own entries. */
  lemma GroupTextReadsOwners(g: Group, c1: map<string, Claim>, c2: map<string, Claim>)
    requires forall e :: e in g.names ==> SameOwner(e.key, c1, c2)
    ensures GroupText(g, c1) == GroupText(g, c2)
  {
    forall j | 0 <= j < |g.names|
      ensures EntryLine(g.names[j], c1) == EntryLine(g.names[j], c2)
    {
      assert g.names[j] in g.names;
    }
    assert EntryLines(g.names, c1) == EntryLines(g.names, c2);
  }

  /** Claiming or releasing a name that no group lists leaves the roster text
      unchanged (applications may name anything). */
  lemma UnlistedClaimInvisible(groups: seq<Group>, claims: map<string, Claim>, key: string, c: Claim)
    requires key !in ListedKeys(groups)
    ensures ListContent(groups, claims[key := c]) == ListContent(groups, claims)
    ensures ListContent(groups, claims - {key}) == ListContent(groups, claims)
  {
    var keys := ListedKeys(groups);
    forall k | k in keys
      ensures SameOwner(k, claims[key := c], claims) && SameOwner(k, claims - {key}, claims)
    {
      assert k != key;
    }
    ListContentReadsListedOwners(groups, claims[key := c], claims);
    ListContentReadsListedOwners(groups, claims - {key}, claims);
  }

  /** Every listed entry has its line, with its current status, in the roster:
      a key listed in two taxonomies shows the same owner on both rosters. */
  lemma EntryLineShown(groups: seq<Group>, claims: map<string, Claim>, gi: nat, ei: nat)
    requires gi < |groups| && ei < |groups[gi].names|
    ensures Contains(ListContent(groups, claims), EntryLine(groups[gi].names[ei], claims))
  {
    var g := groups[gi];
    var line := EntryLine(g.names[ei], claims);
    var lines := EntryLines(g.names, claims);
    var texts := GroupTexts(groups, claims);
    ConcatAround(lines, ei);
    assert lines[ei] == line;
    ContainsSelf(line);
    ContainsExtendLeft(Concat(lines[..ei]), lines[ei], line);
    ContainsExtendRight(Concat(lines[..ei]) + lines[ei], Concat(lines[ei + 1..]), line);
    ContainsExtendLeft(GroupHeader(g), Concat(lines), line);
    ConcatAround(texts, gi);
    ContainsExtendLeft(Concat(texts[..gi]), texts[gi], line);
    ContainsExtendRight(Concat(texts[..gi]) + texts[gi], Concat(texts[gi + 1..]), line);
  }
}
