/** The viewing index `titleToDateFreq`: for each title, the dates it was watched
    on and how many times. */
module Viewing {
  import opened OrderedDict

  /** A value `getDate` produced: a timestamp in milliseconds, or `null` for a date
      string the platform's date parser rejected. */
  datatype WatchDate = Watched(ms: int) | NullDate {

    /** The number the date stands for in `a - b`: `null` converts to 0. */
    function Millis(): (r: int)
      ensures Watched? ==> r == ms
      ensures NullDate? ==> r == 0
    {
      match this
      case Watched(t) => t
      case NullDate => 0
    }
  }

  /** `{ datesWatched, titleFrequency }`. */
  datatype Entry = Entry(datesWatched: seq<WatchDate>, titleFrequency: int) {

    /** Every watch adds one date and one to the frequency. */
    predicate Valid() {
      titleFrequency == |datesWatched|
    }
  }

  predicate IndexValid(d: Dict<string, Entry>) {
    d.Valid() && forall k | k in d.vals :: d.vals[k].Valid()
  }

  function Frequency(e: Entry): int {
    e.titleFrequency
  }

  /** The sum of all frequencies. */
  function TotalFrequency(d: Dict<string, Entry>): int
    requires d.Valid()
  {
    d.Sum(Frequency)
  }

  /** The row handler's update: `title` gets an empty entry unless it has one, then
      one more watch and the row's date at the end of its list. */
  function WithRow(d: Dict<string, Entry>, title: string, date: WatchDate): (r: Dict<string, Entry>)
    requires IndexValid(d)
    ensures IndexValid(r)
    ensures r.vals.Keys == d.vals.Keys + {title}
    ensures title in d.vals ==> r.keys == d.keys
    ensures title !in d.vals ==> r.keys == d.keys + [title]
    ensures r.vals[title].datesWatched == (if title in d.vals then d.vals[title].datesWatched else []) + [date]
    ensures forall k | k in d.vals && k != title :: r.vals[k] == d.vals[k]
    ensures TotalFrequency(r) == TotalFrequency(d) + 1
  {
    var slotted := if title in d.vals then d else d.Put(title, Entry([], 0));
    assert TotalFrequency(slotted) == TotalFrequency(d) by {
      if title !in d.vals {
        PutSum(d, title, Entry([], 0), Frequency);
      }
    }
    var e := slotted.vals[title];
    PutSum(slotted, title, Entry(e.datesWatched + [date], e.titleFrequency + 1), Frequency);
    slotted.Put(title, Entry(e.datesWatched + [date], e.titleFrequency + 1))
  }

  class ViewingIndex {
    var entries: Dict<string, Entry>

    predicate Valid()
      reads this
    {
      IndexValid(entries)
    }

    /** `{}`. */
    constructor ()
      ensures Valid() && entries == Empty()
    {
      entries := Empty();
    }

    /** The row handler's update of one title: an empty entry when the title is new,
        then one more watch on that date. */
    method AddWatch(title: string, date: WatchDate)
      requires Valid()
      modifies this
      ensures Valid() && entries == WithRow(old(entries), title, date)
    {
      if title !in entries.vals {
        entries := entries.Put(title, Entry([], 0));
      }
      var e := entries.vals[title];
      entries := entries.Put(title, Entry(e.datesWatched + [date], e.titleFrequency + 1));
    }
  }
}
