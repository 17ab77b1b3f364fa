/**
 * A client of the repository: a user records a sound, marks it as a favorite and
 * deletes it. Every assertion follows from the repository's contracts alone.
 */
module Scenario {
  import opened Wrappers
  import opened Sounds
  import opened Text
  import opened Storage

  /** A list holding exactly one record is that record. */
  lemma SingletonPermutation(r: seq<Sound>, x: Sound)
    requires multiset(r) == multiset([x])
    ensures r == [x]
  {
    assert |r| == |multiset(r)| == 1;
    assert r[0] in multiset(r);
  }

  method CreateFavoriteRemove()
  {
    var store := new LocalSounds();
    var docs := Some("file:///data/user/0/soundsnap/files/");
    var payload := NewSound("Ton1", Some("beschreibung 1"), "file://sound1.wav", None, None, None);
    var item := store.Create(payload, 1700000000000, "2023-11-14T22:13:20.000Z");

    var listed := store.List();
    SingletonPermutation(listed, item);
    assert listed[0].title == "Ton1" && listed[0].description == Some("beschreibung 1");
    assert listed[0].favorite == None;

    var updated := store.Update(item.id, NoChange.(favorite := Some(true)));
    assert updated.Success?;
    assert updated.value == item.(favorite := Some(true));
    assert store.Records() == [updated.value];

    store.Remove(item.id, docs);
    listed := store.List();
    assert listed == [];
    // The record pointed outside the documents directory, so no file was deleted.
    assert !StartsWith("file://sound1.wav", docs.value);
    assert store.deleteRequests == [];

    // Removing again is a no-op and does not fail.
    store.Remove(item.id, docs);
    assert store.Records() == [];
  }
}
