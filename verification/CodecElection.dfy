/** The election of the codec all clients are told to use. */
module CodecElection {
  import opened Prelude

  const CELT_COMPAT := -2147483637

  datatype Client = Client(opus: bool, codecs: seq<int>)

  function Times(codec: int, codecs: seq<int>): nat {
    if codecs == [] then 0
    else Times(codec, codecs[..|codecs| - 1]) + if codecs[|codecs| - 1] == codec then 1 else 0
  }

  /** How often a codec is named by the clients. */
  function Users(codec: int, clients: seq<Client>): nat {
    if clients == [] then 0
    else Users(codec, clients[..|clients| - 1]) + Times(codec, clients[|clients| - 1].codecs)
  }

  /** The codec with the most users, the largest of those; zero if nobody names any. */
  ghost predicate Elected(clients: seq<Client>, winner: int) {
    if forall c :: Users(c, clients) == 0 then winner == 0
    else
      && Users(winner, clients) > 0
      && forall c :: Beats(winner, Users(winner, clients), c, Users(c, clients))
  }

  /** More users, or as many and the larger codec. */
  predicate Beats(winner: int, most: int, c: int, users: int) {
    users < most || (users == most && c <= winner)
  }

  lemma OneWinner(clients: seq<Client>, a: int, b: int)
    requires Elected(clients, a) && Elected(clients, b)
    ensures a == b
  {
    assert Users(a, clients) == Users(b, clients);
  }

  /** The users of a codec are its occurrences among everything the clients name. */
  function Named(clients: seq<Client>): multiset<int> {
    if clients == [] then multiset{} else multiset(clients[0].codecs) + Named(clients[1..])
  }

  lemma {:induction false} TimesIs(codec: int, codecs: seq<int>)
    ensures Times(codec, codecs) == multiset(codecs)[codec]
  {
    if codecs != [] {
      var front := codecs[..|codecs| - 1];
      TimesIs(codec, front);
      assert codecs == front + [codecs[|codecs| - 1]];
    }
  }

  lemma {:induction false} NamedFromBack(clients: seq<Client>, last: Client)
    ensures Named(clients + [last]) == Named(clients) + multiset(last.codecs)
    decreases |clients|
  {
    if clients != [] {
      NamedFromBack(clients[1..], last);
      assert (clients + [last])[1..] == clients[1..] + [last];
    } else {
      assert (clients + [last])[1..] == [];
    }
  }

  lemma {:induction false} UsersAre(codec: int, clients: seq<Client>)
    ensures Users(codec, clients) == Named(clients)[codec]
    decreases |clients|
  {
    if clients != [] {
      var front, last := clients[..|clients| - 1], clients[|clients| - 1];
      UsersAre(codec, front);
      TimesIs(codec, last.codecs);
      NamedFromBack(front, last);
      assert clients == front + [last];
    }
  }

  lemma EmptyIff(m: multiset<int>)
    ensures m == multiset{} <==> forall c :: c !in m
  {
    if forall c :: c !in m {
      assert m == multiset{};
    }
  }

  /** The election without its tally: most occurrences, then the larger number; nothing named elects zero. */
  lemma ElectedIs(clients: seq<Client>, winner: int)
    ensures Elected(clients, winner) <==>
              if Named(clients) == multiset{} then winner == 0
              else
                && winner in Named(clients)
                && forall c :: c in Named(clients) ==>
                     || Named(clients)[c] < Named(clients)[winner]
                     || (Named(clients)[c] == Named(clients)[winner] && c <= winner)
  {
    var named := Named(clients);
    forall c ensures Users(c, clients) == named[c] {
      UsersAre(c, clients);
    }
    if named != multiset{} {
      EmptyIff(named);
      var c :| c in named;
      assert Users(c, clients) > 0;
      if Elected(clients, winner) {
        forall c | c in named ensures named[c] < named[winner] || (named[c] == named[winner] && c <= winner) {
          assert Beats(winner, Users(winner, clients), c, Users(c, clients));
        }
      }
    }
  }

  ghost predicate AllOpus(clients: seq<Client>) {
    forall i :: 0 <= i < |clients| ==> clients[i].opus
  }

  /** The best of a tally. */
  ghost predicate Best(counts: map<int, int>, winner: int) {
    if counts == map[] then winner == 0
    else
      && winner in counts
      && forall c :: c in counts ==> Beats(winner, counts[winner], c, counts[c])
  }

  /** The best of the codecs seen so far. */
  ghost predicate Leads(counts: map<int, int>, left: set<int>, winner: int, count: int) {
    if counts.Keys <= left then winner == 0 && count == 0
    else
      && winner in counts && winner !in left && counts[winner] == count
      && forall c :: c in counts && c !in left ==> Beats(winner, count, c, counts[c])
  }

  method Tally(clients: seq<Client>) returns (counts: map<int, int>, users: nat, opus: nat)
    ensures users == |clients| && opus <= users
    ensures opus == users <==> AllOpus(clients)
    ensures forall c :: Users(c, clients) == if c in counts then counts[c] else 0
    ensures forall c :: c in counts ==> counts[c] > 0
  {
    counts, users, opus := map[], 0, 0;
    for i := 0 to |clients|
      invariant users == i && opus <= i
      invariant opus == users <==> AllOpus(clients[..i])
      invariant forall c :: Users(c, clients[..i]) == if c in counts then counts[c] else 0
      invariant forall c :: c in counts ==> counts[c] > 0
    {
      var client := clients[i];
      assert clients[..i + 1] == clients[..i] + [client];
      users := users + 1;
      if client.opus {
        opus := opus + 1;
      }
      for j := 0 to |client.codecs|
        invariant forall c :: Users(c, clients[..i]) + Times(c, client.codecs[..j])
                           == if c in counts then counts[c] else 0
        invariant forall c :: c in counts ==> counts[c] > 0
      {
        var codec := client.codecs[j];
        assert client.codecs[..j + 1] == client.codecs[..j] + [codec];
        counts := counts[codec := (if codec in counts then counts[codec] else 0) + 1];
      }
      assert client.codecs[..|client.codecs|] == client.codecs;
    }
    assert clients[..|clients|] == clients;
  }

  /** Goes through the tally in any order. */
  method Elect(counts: map<int, int>) returns (winner: int)
    requires forall c :: c in counts ==> counts[c] > 0
    ensures Best(counts, winner)
  {
    var left: set<int> := counts.Keys;
    var count := 0;
    winner := 0;
    while left != {}
      invariant left <= counts.Keys && Leads(counts, left, winner, count)
      decreases |left|
    {
      var codec := Pick(left);
      if counts[codec] > count {
        count := counts[codec];
        winner := codec;
      }
      if counts[codec] == count && codec > winner {
        winner := codec;
      }
      left := left - {codec};
    }
    assert counts != map[] ==> exists c :: c in counts.Keys;
  }

  class Codecs {
    var alpha: int
    var beta: int
    var preferAlpha: bool
    var opus: bool

    constructor (alpha: int, beta: int, preferAlpha: bool, opus: bool)
      ensures this.alpha == alpha && this.beta == beta && this.preferAlpha == preferAlpha && this.opus == opus
    {
      this.alpha, this.beta, this.preferAlpha, this.opus := alpha, beta, preferAlpha, opus;
    }

    function Preferred(): int
      reads this
    {
      if preferAlpha then alpha else beta
    }

    /** Afterwards the preferred codec is the winner and Opus is on exactly when all have it; changes are announced. */
    method UpdateCodecVersions(clients: seq<Client>) returns (announced: bool, ghost winner: int)
      modifies this
      ensures Elected(clients, winner) && Preferred() == winner
      ensures opus <==> AllOpus(clients)
      ensures preferAlpha == if winner == old(Preferred()) then old(preferAlpha)
                             else winner == -2147483637 || !old(preferAlpha)
      ensures if preferAlpha then beta == old(beta) else alpha == old(alpha)
      ensures announced <==>
                alpha != old(alpha) || beta != old(beta) || preferAlpha != old(preferAlpha) || opus != old(opus)
    {
      var counts, users, opusUsers := Tally(clients);
      var elected := Elect(counts);
      winner := elected;
      WinnerOfTally(clients, counts, elected);
      var current := if preferAlpha then alpha else beta;
      var enableOpus := users == opusUsers;
      if elected != current {
        if elected == CELT_COMPAT {
          preferAlpha := true;
        } else {
          preferAlpha := !preferAlpha;
        }
        if preferAlpha {
          alpha := elected;
        } else {
          beta := elected;
        }
      } else if opus == enableOpus {
        return false, winner;
      }
      opus := enableOpus;
      announced := true;
    }
  }

  lemma WinnerOfTally(clients: seq<Client>, counts: map<int, int>, winner: int)
    requires forall c :: Users(c, clients) == if c in counts then counts[c] else 0
    requires forall c :: c in counts ==> counts[c] > 0
    requires Best(counts, winner)
    ensures Elected(clients, winner)
  {
    if counts == map[] {
      assert forall c :: Users(c, clients) == 0;
    } else {
      assert Users(winner, clients) > 0;
      forall c ensures Beats(winner, Users(winner, clients), c, Users(c, clients)) {
        if c !in counts {
          assert Users(c, clients) == 0;
        }
      }
    }
  }
}
