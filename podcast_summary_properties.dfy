/**
  Properties of the podcast-summary router that span more than one request.
 */
module PodcastSummaryProperties {
  import opened JsRuntime
  import opened PodcastSummaryRoutes

  /** A record POST appends carries the request's title and the generated
      script, and a DELETE with its id removes it (and whatever shares the id). */
  lemma PostedRecordIsDeletable(s: seq<Record>, title: JsonValue, script: string)
    ensures var id := NextId(|s|);
      var t := s + [Record(id, title, script)];
      && t[|s|].title == title && t[|s|].textContent == script
      && HasId(t, DeleteKey(id))
      && |Without(t, DeleteKey(id))| < |t|
      && !HasId(Without(t, DeleteKey(id)), id)
  {
    var id := NextId(|s|);
    var t := s + [Record(id, title, script)];
    StoreIdIsOwnKey(id);
    assert t[|s|].id == id;
    WithoutShrinksIff(t, id);
    WithoutRemovesKey(t, id);
  }

  /** Every record in a store can be deleted through its own id, and that
      DELETE leaves no record with the id behind. */
  lemma EveryRecordDeletable(s: seq<Record>, i: int)
    requires StoreIds(s) && 0 <= i < |s|
    ensures DeleteKey(s[i].id) == s[i].id
    ensures |Without(s, DeleteKey(s[i].id))| < |s|
    ensures s[i] !in Without(s, DeleteKey(s[i].id))
  {
    StoreIdIsOwnKey(s[i].id);
    WithoutShrinksIff(s, s[i].id);
  }

  /** Ids are not unique: once record "1" of the initial list is deleted, the
      next POST is numbered from the shorter length and reuses id "3"; a
      DELETE of "3" then removes both records. (The path parameters "1" and
      "3" are their own keys, by StoreIdIsOwnKey.) */
  lemma IdCollisionAfterDelete(title: JsonValue, script: string)
    ensures var afterDelete := Without(InitialSummaries, "1");
      var afterPost := afterDelete + [Record(NextId(|afterDelete|), title, script)];
      && |afterPost| == 3
      && afterPost[1].id == "3" && afterPost[2].id == "3"
      && afterPost[1] == InitialSummaries[2] && afterPost[2] == Record("3", title, script)
      && Without(afterPost, "3") == [afterPost[0]]
  {
    var rest := InitialSummaries[1..];
    assert Without(InitialSummaries, "1") == rest by {
      assert !HasId(rest, "1");
      WithoutShrinksIff(rest, "1");
    }
    assert NextId(2) == "3" by {
      assert DecimalString(3) == "3";
    }
    var afterPost := rest + [Record("3", title, script)];
    assert Without(afterPost, "3") == [afterPost[0]] by {
      var tail := afterPost[1..];
      assert tail[1..] == [afterPost[2]];
      assert Without([afterPost[2]], "3") == [];
      assert Without(tail, "3") == [];
      assert afterPost[0].id != "3";
    }
  }

  /** Create, list and delete against a running router: the POST answers
      200 with the script, the list then ends with the new record, and a
      DELETE of the new id answers 200 and leaves the earlier list minus any
      record that shared the id. */
  method CreateListDelete(router: PodcastSummaryRouter, title: JsonValue, text: string, script: string)
    returns (created: Response, listed: Response, deleted: Response)
    requires router.Valid()
    requires text != "" && Utf16Length(text) <= TextLimit
    modifies router
    ensures created == Reply(200, GeneratedScript(script))
    ensures listed == Reply(200, SummaryList(old(router.podcastSummaries)
                                           + [Record(NextId(|old(router.podcastSummaries)|), title, script)]))
    ensures deleted.Reply? && deleted.status == 200
    ensures router.podcastSummaries
            == Without(old(router.podcastSummaries), NextId(|old(router.podcastSummaries)|))
  {
    var before := router.podcastSummaries;
    var generatorInput;
    created, generatorInput := router.Post(title, Str(text), true, Script(script));
    listed := router.Get();
    var id := NextId(|before|);
    StoreIdIsOwnKey(id);
    PostedRecordIsDeletable(before, title, script);
    deleted := router.Delete(id);
    WithoutConcat(before, [Record(id, title, script)], id);
    assert Without([Record(id, title, script)], id) == [];
  }
}
