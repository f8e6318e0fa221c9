/** What one client and its server say to each other: every request of a sync that the server
    answered, and what it does to the two sets (kv/client/client.go, kv/server/server.go). */
module Talks {
  import opened Entries
  import opened Canon

  // The client's set and the server's.
  datatype Sets = Sets(mine: set<Entry>, theirs: set<Entry>)

  datatype Said = Pushed(batch: set<Entry>, taken: bool) | Pulled(cursor: Pos, budget: nat) | Probed(same: bool)

  // listing: the server's set in canonical order; heard: the client got the answer, and kept it.
  datatype Exchange = Exchange(said: Said, listing: seq<Entry>, heard: bool)

  ghost predicate May(id: Ids, s: Sets, x: Exchange) {
    && Sorted(id, x.listing) && Elements(x.listing) == s.theirs
    && (x.said.Pushed? ==> x.said.batch <= s.mine)
    && (x.said.Probed? ==> (x.said.same <==> s.mine == s.theirs))
  }

  ghost function Moved(id: Ids, s: Sets, x: Exchange): Sets {
    match x.said
    case Pushed(batch, taken) => if taken then s.(theirs := s.theirs + batch) else s
    case Pulled(cursor, budget) =>
      if x.heard then s.(mine := s.mine + Elements(Page(id, x.listing, cursor, budget))) else s
    case Probed(_) => s
  }

  // The exchanges lead from the one pair of sets to the other.
  ghost predicate Tells(id: Ids, from: Sets, talk: seq<Exchange>, to: Sets)
    decreases |talk|
  {
    if talk == [] then from == to
    else May(id, from, talk[0]) && Tells(id, Moved(id, from, talk[0]), talk[1..], to)
  }

  lemma {:induction false} TellsMore(id: Ids, from: Sets, talk: seq<Exchange>, to: Sets, x: Exchange)
    requires Tells(id, from, talk, to) && May(id, to, x)
    ensures Tells(id, from, talk + [x], Moved(id, to, x))
    decreases |talk|
  {
    if talk == [] {
      assert talk + [x] == [x] && [x][1..] == [];
    } else {
      assert (talk + [x])[1..] == talk[1..] + [x];
      TellsMore(id, Moved(id, from, talk[0]), talk[1..], to, x);
    }
  }

  // The last exchange was a probe that matched, and the client knows.
  predicate Agreed(talk: seq<Exchange>) {
    talk != [] && talk[|talk| - 1].said == Probed(true) && talk[|talk| - 1].heard
  }
}
