/** `Film`: an immutable record whose identifier is drawn, at construction,
    from a process-wide `long` counter that starts at 1 and is
    post-incremented. */
module FilmModel {
  import opened JavaLang

  /** Every field is final, so a film is a value. */
  datatype Film = Film(
    id: Long,
    name: string,
    description: string,
    releaseDate: JavaDate,
    duration: JavaDuration)

  /** The ids the first `n` constructions hand out: 1, 2, ..., n. */
  ghost function IssuedIds(n: nat): seq<int> {
    if n == 0 then [] else IssuedIds(n - 1) + [n]
  }

  /** The static `counter` of `Film`; one object stands for the class's
      static state. `issued` records every id handed out so far. */
  class Counter {
    var counter: Long
    ghost var issued: seq<int>

    /** No overflow has happened yet: the counter is one past the number of
        films constructed, and the ids issued are exactly 1..counter-1. */
    ghost predicate Valid()
      reads this
    {
      counter as int == |issued| + 1 && issued == IssuedIds(|issued|)
    }

    /** Class initialisation: `counter = 1`. */
    constructor ()
      ensures Valid() && counter == 1 && issued == []
    {
      counter := 1;
      issued := [];
    }

    /** `new Film(name, description, releaseDate, duration)`: the new film
        takes the counter's current value as its id and the counter moves on
        by one (`id = counter++`). */
    method NewFilm(name: string, description: string, releaseDate: JavaDate, duration: JavaDuration)
      returns (film: Film)
      modifies this
      ensures film == Film(old(counter), name, description, releaseDate, duration)
      ensures counter == Inc(old(counter))
      ensures issued == old(issued) + [film.id as int]
      ensures old(Valid()) && old(counter) as int < LONG_MAX ==> Valid() && counter > film.id >= 1
    {
      film := Film(counter, name, description, releaseDate, duration);
      counter := Inc(counter);
      issued := issued + [film.id as int];
    }
  }

  /** The i-th construction receives id i + 1; in particular the first film
      gets id 1. */
  lemma {:induction false} IssuedIdsAreOneToN(n: nat)
    ensures |IssuedIds(n)| == n
    ensures forall i :: 0 <= i < n ==> IssuedIds(n)[i] == i + 1
  {
    if n > 0 {
      IssuedIdsAreOneToN(n - 1);
    }
  }

  /** Ids of successive films strictly increase, are at least 1 and stay
      below the counter, so they are pairwise distinct. */
  lemma IssuedIdsIncreasing(n: nat)
    ensures forall i, j :: 0 <= i < j < |IssuedIds(n)| ==> IssuedIds(n)[i] < IssuedIds(n)[j]
    ensures forall id :: id in IssuedIds(n) ==> 1 <= id < n + 1
  {
    IssuedIdsAreOneToN(n);
  }

  /** The counter exceeds every id already issued: if a repository's keys
      are all ids issued so far, the next film's id is not one of them. */
  lemma {:induction false} NextIdIsFresh(keys: set<Long>, issued: seq<int>, counter: Long)
    requires counter as int == |issued| + 1 && issued == IssuedIds(|issued|)
    requires forall k | k in keys :: k as int in issued
    ensures counter !in keys && counter >= 1
  {
    IssuedIdsIncreasing(|issued|);
  }
}
