/** The comparison store: the universities picked for side-by-side comparison,
    in the order they were added, and the user's ENT score. */
module Compare {

  import opened Wrappers
  import opened Types
  import opened UniversityList

  class CompareStore {
    var compareList: seq<University>
    var userEntScore: Option<int>

    /** Every university is in the list at most once. */
    ghost predicate Valid()
      reads this
    {
      DistinctIds(compareList)
    }

    /** The store starts with nothing to compare and no score. */
    constructor ()
      ensures Valid()
      ensures compareList == [] && userEntScore == None
    {
      compareList := [];
      userEntScore := None;
    }

    /** Appends `university` unless an entry with its id is already there. */
    method AddToCompare(university: University)
      requires Valid()
      modifies this
      ensures Valid()
      ensures HasId(compareList, university.id)
      ensures old(HasId(compareList, university.id)) ==> compareList == old(compareList)
      ensures !old(HasId(compareList, university.id)) ==> compareList == old(compareList) + [university]
      ensures userEntScore == old(userEntScore)
    {
      if HasId(compareList, university.id) {
        return;
      }
      AppendNewKeepsDistinct(compareList, university);
      compareList := compareList + [university];
      assert compareList[|compareList| - 1] == university;
    }

    /** Drops the entry with `id`, keeping the others in order. */
    method RemoveFromCompare(id: string)
      requires Valid()
      modifies this
      ensures Valid()
      ensures compareList == WithoutId(old(compareList), id)
      ensures !HasId(compareList, id)
      ensures !old(HasId(compareList, id)) ==> compareList == old(compareList)
      ensures old(HasId(compareList, id)) ==> |compareList| == old(|compareList|) - 1
      ensures userEntScore == old(userEntScore)
    {
      WithoutIdKeepsDistinct(compareList, id);
      if HasId(compareList, id) {
        WithoutPresentIdLength(compareList, id);
      } else {
        WithoutAbsentId(compareList, id);
      }
      compareList := WithoutId(compareList, id);
    }

    method SetEntScore(score: Option<int>)
      requires Valid()
      modifies this
      ensures Valid()
      ensures userEntScore == score
      ensures compareList == old(compareList)
    {
      userEntScore := score;
    }
  }

  /** Adding the same university twice leaves one entry in its first place,
      and removing an id nobody has leaves the list as it was. */
  method AddTwiceRemoveAbsent(u: University, v: University, other: string)
    requires u.id != v.id && other != u.id && other != v.id
  {
    var store := new CompareStore();
    store.AddToCompare(u);
    store.AddToCompare(v);
    store.AddToCompare(u);
    assert store.compareList == [u, v];
    store.RemoveFromCompare(other);
    assert store.compareList == [u, v];
    store.RemoveFromCompare(u.id);
    assert store.compareList == [v];
  }
}
