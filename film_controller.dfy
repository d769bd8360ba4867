/** `FilmController`: list, create and replace over the static map from id
    to film. One controller object stands for the class and its static map. */
module FilmControllerModel {
  import opened JavaLang
  import opened Outcomes
  import opened FilmModel
  import Store

  class FilmController {
    var data: map<Long, Film>

    /** Every key is non-negative and names the film stored under it. */
    ghost predicate Valid()
      reads this
    {
      forall id | id in data :: id >= 0 && data[id].id == id
    }

    /** The static map starts empty. */
    constructor ()
      ensures Valid() && data == map[]
    {
      data := map[];
    }

    /** `getAllFilms`: one film per stored entry, each stored under its own
        id; the map is not touched. */
    method GetAllFilms() returns (films: set<Film>)
      requires Valid()
      ensures films == data.Values
      ensures |films| == |data|
      ensures forall f | f in films :: f.id in data && data[f.id] == f
    {
      films := data.Values;
      Store.KeyedValuesDistinct(data, (f: Film) => f.id);
    }

    /** `addFilm`: the existing-id check runs before the negative-id check;
        since no negative id is ever stored, a negative id is reported as
        such whatever the map holds. */
    method AddFilm(film: Film) returns (result: Result<Film>)
      requires Valid()
      modifies this
      ensures Valid()
      ensures film.id in old(data) ==> result == Err(ValidationError(IdAlreadyExists))
      ensures film.id < 0 ==> result == Err(ValidationError(NegativeId))
      ensures result.Err? ==> data == old(data)
      ensures result.Ok? <==> film.id >= 0 && film.id !in old(data)
      ensures result.Ok? ==> result.value == film && data == old(data)[film.id := film]
      ensures result.Ok? ==> |data| == |old(data)| + 1
    {
      var id := film.id;
      if id in data {
        return Err(ValidationError(IdAlreadyExists));
      }
      if id < 0 {
        return Err(ValidationError(NegativeId));
      }
      data := data[id := film];
      result := Ok(data[id]);
    }

    /** `updateFilm`: a full overwrite of an existing entry, never an insert. */
    method UpdateFilm(film: Film) returns (result: Result<Film>)
      requires Valid()
      modifies this
      ensures Valid()
      ensures data.Keys == old(data).Keys
      ensures film.id !in old(data) ==> result == Err(ValidationError(IdNotFound)) && data == old(data)
      ensures film.id in old(data) ==> result == Ok(film) && data == old(data)[film.id := film]
    {
      var id := film.id;
      if id !in data {
        return Err(ValidationError(IdNotFound));
      }
      data := data[id := film];
      result := Ok(data[id]);
    }
  }

  /** A film constructed from the counter and then posted to `addFilm`.
      While every stored key was issued by the counter, the new film's id is
      never a key and never negative, so both checks of `addFilm` pass. */
  method PostNewFilm(
    controller: FilmController, counter: Counter,
    name: string, description: string, releaseDate: JavaDate, duration: JavaDuration)
    returns (result: Result<Film>)
    requires controller.Valid() && counter.Valid()
    requires counter.counter as int < LONG_MAX
    requires forall k | k in controller.data :: k as int in counter.issued
    modifies controller, counter
    ensures controller.Valid() && counter.Valid()
    ensures result.Ok?
    ensures result.value == Film(old(counter.counter), name, description, releaseDate, duration)
    ensures counter.counter == Inc(old(counter.counter))
    ensures counter.issued == old(counter.issued) + [result.value.id as int]
    ensures controller.data == old(controller.data)[result.value.id := result.value]
    ensures forall k | k in controller.data :: k as int in counter.issued
  {
    NextIdIsFresh(controller.data.Keys, counter.issued, counter.counter);
    var film := counter.NewFilm(name, description, releaseDate, duration);
    result := controller.AddFilm(film);
  }
}
