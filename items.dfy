/** The item catalog (backend/src/riasecItems.js): the fixed 30 x 3 matrix of
    trait letters, the quiz items built from it, and the round-robin image
    picker that gives each option a picture from its letter's pool. */
module RiasecItems {
  import opened Text
  import opened Riasec

  const ItemCount: nat := 30

  /** The six prompts, cycled over the items. */
  const Prompts: seq<string> := [
    "Which scene looks most energizing to you?",
    "Which activity would you volunteer for first?",
    "Which project would you confidently lead?",
    "Which situation best reflects your natural strengths?",
    "Which environment would you happily spend an afternoon in?",
    "Which challenge feels most aligned with you right now?"
  ]

  /** `CATEGORY_MATRIX`: row k lists the trait letters of item k + 1's three options. */
  const CategoryMatrix: seq<seq<string>> := [
    ["R", "I", "A"], ["S", "E", "C"], ["R", "S", "E"], ["I", "A", "C"], ["R", "E", "C"],
    ["I", "S", "A"], ["R", "A", "S"], ["I", "C", "E"], ["R", "I", "C"], ["A", "S", "E"],
    ["R", "S", "C"], ["I", "A", "E"], ["R", "A", "E"], ["I", "S", "C"], ["R", "I", "S"],
    ["A", "E", "C"], ["R", "C", "A"], ["I", "E", "S"], ["R", "E", "A"], ["I", "C", "S"],
    ["R", "S", "A"], ["I", "E", "C"], ["R", "A", "I"], ["S", "C", "E"], ["R", "C", "S"],
    ["I", "A", "S"], ["R", "E", "I"], ["A", "C", "E"], ["R", "S", "I"], ["A", "E", "C"]
  ]

  /** A matrix row the catalog accepts: three one-letter cells, three different letters. */
  predicate WellFormedRow(row: seq<string>) {
    |row| == 3
    && (forall j :: 0 <= j < 3 ==> |row[j]| == 1 && IsRiasec(row[j][0]))
    && row[0] != row[1] && row[0] != row[2] && row[1] != row[2]
  }

  /** Every one of the 30 rows holds three distinct RIASEC letters. */
  lemma MatrixWellFormed()
    ensures |CategoryMatrix| == ItemCount
    ensures forall k :: 0 <= k < ItemCount ==> WellFormedRow(CategoryMatrix[k])
  {
  }

  /** The trait letter of option `j` (0-based) of item `k + 1`. */
  function Code(k: nat, j: nat): (c: char)
    requires k < ItemCount && j < 3
    ensures IsRiasec(c)
  {
    MatrixWellFormed();
    CategoryMatrix[k][j][0]
  }

  /** `${itemId}${String.fromCharCode(97 + optionIdx)}`: "1a", "1b", ..., "30c". */
  function OptionId(itemId: nat, j: nat): (id: string)
    requires j < 3
    ensures StartsWith(id, NatToString(itemId))
    ensures |id| == |NatToString(itemId)| + 1 && id[|id| - 1] == ('a' as int + j) as char
  {
    NatToString(itemId) + [('a' as int + j) as char]
  }

  /** The prompt of item index `idx`: the prompts cycle with period 6. */
  function Prompt(idx: nat): string {
    Prompts[idx % |Prompts|] + " (Item " + NatToString(idx + 1) + ")"
  }

  /** An item's prompt opens with the prompt text six items earlier, and ends
      with its own number. */
  lemma PromptCycles(idx: nat)
    ensures StartsWith(Prompt(idx), Prompts[idx % 6])
    ensures StartsWith(Prompt(idx + 6), Prompts[idx % 6])
    ensures var suffix := " (Item " + NatToString(idx + 1) + ")";
            |suffix| <= |Prompt(idx)| && Prompt(idx)[|Prompt(idx)| - |suffix|..] == suffix
  {
    assert (idx + 6) % 6 == idx % 6;
    var head := Prompts[idx % 6];
    var suffix := " (Item " + NatToString(idx + 1) + ")";
    assert Prompt(idx) == head + suffix;
    assert Prompt(idx)[..|head|] == head;
    assert Prompt(idx)[|Prompt(idx)| - |suffix|..] == suffix;
    var later := " (Item " + NatToString(idx + 7) + ")";
    assert Prompt(idx + 6) == head + later;
    assert Prompt(idx + 6)[..|head|] == head;
  }

  datatype ItemOption = ItemOption(id: string, imageUrl: string, code: string, description: string)
  datatype Item = Item(id: nat, prompt: string, options: seq<ItemOption>)

  /** The item at index `idx` is shaped as the catalog promises: its id is
      idx + 1, its options are `<id>a`, `<id>b`, `<id>c` carrying the matrix
      letters of row idx in order. */
  predicate ItemShaped(item: Item, idx: nat)
    requires idx < ItemCount
  {
    item.id == idx + 1
    && item.prompt == Prompt(idx)
    && |item.options| == 3
    && forall j :: 0 <= j < 3 ==>
         item.options[j].id == OptionId(idx + 1, j)
         && item.options[j].code == CategoryMatrix[idx][j]
         && item.options[j].description == "Represents " + CategoryMatrix[idx][j] + " type"
  }

  /** A property every element has at its own index survives appending one
      more element that has it at the next index. */
  lemma EveryAppend<T>(xs: seq<T>, x: T, p: (T, int) -> bool)
    requires forall k :: 0 <= k < |xs| ==> p(xs[k], k)
    requires p(x, |xs|)
    ensures forall k :: 0 <= k < |xs| + 1 ==> p((xs + [x])[k], k)
  {
    forall k | 0 <= k < |xs| + 1
      ensures p((xs + [x])[k], k)
    {
      if k < |xs| {
        assert (xs + [x])[k] == xs[k];
      }
    }
  }

  /** The images of a list of options, in order. */
  function ImageUrls(options: seq<ItemOption>): (urls: seq<string>)
    ensures |urls| == |options|
  {
    seq(|options|, i requires 0 <= i < |options| => options[i].imageUrl)
  }

  /** The image URL a letter falls back to: the first image of the first
      pool, in R, I, A, S, E, C order, whose first URL is non-empty (`||`
      skips undefined and ''), else "". */
  function FallbackUrl(pools: map<string, seq<string>>): (url: string)
    ensures url == "" || exists l :: l in pools && |pools[l]| > 0 && pools[l][0] == url
  {
    if FirstImage(pools, "R") != "" then FirstImage(pools, "R")
    else if FirstImage(pools, "I") != "" then FirstImage(pools, "I")
    else if FirstImage(pools, "A") != "" then FirstImage(pools, "A")
    else if FirstImage(pools, "S") != "" then FirstImage(pools, "S")
    else if FirstImage(pools, "E") != "" then FirstImage(pools, "E")
    else FirstImage(pools, "C")
  }

  /** `pools[l][0]`, with "" standing for a missing first entry. */
  function FirstImage(pools: map<string, seq<string>>, l: string): (url: string)
    ensures url != "" ==> l in pools && |pools[l]| > 0 && pools[l][0] == url
  {
    if l in pools && |pools[l]| > 0 then pools[l][0] else ""
  }

  /** The images drawn for a run of letters and the counters afterwards. */
  datatype Draws = Draws(urls: seq<string>, counters: map<string, nat>)

  /** One `getNextImage` call on explicit state: the counter's image of a
      non-empty pool, with that counter advanced, or the fallback and no change. */
  function NextImage(pools: map<string, seq<string>>, fallback: string, counters: map<string, nat>,
                     letter: string): (d: Draws)
    requires counters.Keys == pools.Keys
    ensures |d.urls| == 1 && d.counters.Keys == counters.Keys
  {
    if letter in pools && |pools[letter]| > 0 then
      var index := counters[letter];
      Draws([pools[letter][index % |pools[letter]|]], counters[letter := index + 1])
    else Draws([fallback], counters)
  }

  /** The images `getNextImage` hands out for `letters`, drawn in order. */
  function Draw(pools: map<string, seq<string>>, fallback: string, counters: map<string, nat>,
                letters: seq<string>): (d: Draws)
    requires counters.Keys == pools.Keys
    ensures |d.urls| == |letters| && d.counters.Keys == counters.Keys
    decreases |letters|
  {
    if |letters| == 0 then Draws([], counters)
    else
      var before := Draw(pools, fallback, counters, letters[..|letters| - 1]);
      var last := NextImage(pools, fallback, before.counters, letters[|letters| - 1]);
      Draws(before.urls + last.urls, last.counters)
  }

  /** The image a letter receives after `earlier` draws of it: round-robin
      through its pool from its starting counter, or the fallback. */
  function RoundRobin(pools: map<string, seq<string>>, fallback: string, counters: map<string, nat>,
                      letter: string, earlier: nat): string
    requires counters.Keys == pools.Keys
  {
    if letter in pools && |pools[letter]| > 0 then
      pools[letter][(counters[letter] + earlier) % |pools[letter]|]
    else fallback
  }

  /** One more letter draws one more image from the counters so far. */
  lemma DrawStep(pools: map<string, seq<string>>, fallback: string, counters: map<string, nat>,
                 letters: seq<string>, j: nat)
    requires counters.Keys == pools.Keys && j < |letters|
    ensures var before := Draw(pools, fallback, counters, letters[..j]);
            var next := NextImage(pools, fallback, before.counters, letters[j]);
            Draw(pools, fallback, counters, letters[..j + 1]) == Draws(before.urls + next.urls, next.counters)
  {
    assert letters[..j + 1][..j] == letters[..j];
  }

  /** The counter of `l` after drawing `letters`: grown by the number of draws
      of `l` when its pool has images, unchanged otherwise. */
  lemma {:induction false} DrawCounter(pools: map<string, seq<string>>, fallback: string,
                                       counters: map<string, nat>, letters: seq<string>, l: string)
    requires counters.Keys == pools.Keys && l in counters
    ensures Draw(pools, fallback, counters, letters).counters[l]
              == if |pools[l]| > 0 then counters[l] + multiset(letters)[l] else counters[l]
    decreases |letters|
  {
    if |letters| > 0 {
      var n := |letters| - 1;
      var init := letters[..n];
      var x := letters[n];
      DrawCounter(pools, fallback, counters, init, l);
      var before := Draw(pools, fallback, counters, init);
      var after := NextImage(pools, fallback, before.counters, x).counters;
      assert Draw(pools, fallback, counters, letters).counters == after;
      assert letters == init + [x];
      assert multiset(letters) == multiset(init) + multiset{x};
      if l == x && |pools[l]| > 0 {
        assert after[l] == before.counters[l] + 1;
      } else {
        assert after[l] == before.counters[l];
      }
    }
  }

  /** The next image of a letter with images is the one at its counter. */
  lemma NextImageOfPool(pools: map<string, seq<string>>, fallback: string, counters: map<string, nat>,
                        x: string, base: nat)
    requires counters.Keys == pools.Keys && x in pools && |pools[x]| > 0
    requires counters[x] == base && x in counters
    ensures NextImage(pools, fallback, counters, x).urls[0] == pools[x][base % |pools[x]|]
  {
  }

  /** The last image drawn is the one after the earlier draws of its letter. */
  lemma DrawLast(pools: map<string, seq<string>>, fallback: string, counters: map<string, nat>,
                 letters: seq<string>)
    requires counters.Keys == pools.Keys && |letters| > 0
    ensures var n := |letters| - 1;
            Draw(pools, fallback, counters, letters).urls[n]
              == RoundRobin(pools, fallback, counters, letters[n], multiset(letters[..n])[letters[n]])
  {
    var n := |letters| - 1;
    var init := letters[..n];
    var x := letters[n];
    var before := Draw(pools, fallback, counters, init);
    var next := NextImage(pools, fallback, before.counters, x);
    assert Draw(pools, fallback, counters, letters).urls[n] == next.urls[0];
    var earlier := multiset(init)[x];
    if x in pools && |pools[x]| > 0 {
      DrawCounter(pools, fallback, counters, init, x);
      NextImageOfPool(pools, fallback, before.counters, x, counters[x] + earlier);
    }
  }

  /** One more draw leaves the earlier images as they were. */
  lemma DrawPrefix(pools: map<string, seq<string>>, fallback: string, counters: map<string, nat>,
                   letters: seq<string>, i: nat)
    requires counters.Keys == pools.Keys && i + 1 < |letters|
    ensures Draw(pools, fallback, counters, letters).urls[i]
              == Draw(pools, fallback, counters, letters[..|letters| - 1]).urls[i]
  {
  }

  /** The i-th image drawn is the one after the earlier draws of the same
      letter. */
  lemma {:induction false} DrawRoundRobinAt(pools: map<string, seq<string>>, fallback: string,
                                            counters: map<string, nat>, letters: seq<string>, i: nat)
    requires counters.Keys == pools.Keys && i < |letters|
    ensures Draw(pools, fallback, counters, letters).urls[i]
              == RoundRobin(pools, fallback, counters, letters[i], multiset(letters[..i])[letters[i]])
    decreases |letters|
  {
    var n := |letters| - 1;
    if i == n {
      DrawLast(pools, fallback, counters, letters);
    } else {
      var init := letters[..n];
      var x := letters[i];
      assert letters[..i] == init[..i] && x == init[i];
      DrawRoundRobinAt(pools, fallback, counters, init, i);
      DrawPrefix(pools, fallback, counters, letters, i);
    }
  }

  /** Drawing is round-robin per letter: every image is the one after the
      earlier draws of the same letter. */
  lemma DrawRoundRobin(pools: map<string, seq<string>>, fallback: string,
                       counters: map<string, nat>, letters: seq<string>)
    requires counters.Keys == pools.Keys
    ensures var d := Draw(pools, fallback, counters, letters);
            forall i :: 0 <= i < |letters| ==>
              d.urls[i] == RoundRobin(pools, fallback, counters, letters[i], multiset(letters[..i])[letters[i]])
  {
    forall i | 0 <= i < |letters|
      ensures Draw(pools, fallback, counters, letters).urls[i]
                == RoundRobin(pools, fallback, counters, letters[i], multiset(letters[..i])[letters[i]])
    {
      DrawRoundRobinAt(pools, fallback, counters, letters, i);
    }
  }

  /** After the draws, the counter of each letter with a non-empty pool has
      moved on by the number of times the letter was drawn for; the others
      stay put. */
  lemma DrawCounters(pools: map<string, seq<string>>, fallback: string,
                     counters: map<string, nat>, letters: seq<string>)
    requires counters.Keys == pools.Keys
    ensures var d := Draw(pools, fallback, counters, letters);
            forall l :: l in counters ==>
              d.counters[l] == if |pools[l]| > 0 then counters[l] + multiset(letters)[l] else counters[l]
  {
    forall l | l in counters
      ensures Draw(pools, fallback, counters, letters).counters[l]
                == if |pools[l]| > 0 then counters[l] + multiset(letters)[l] else counters[l]
    {
      DrawCounter(pools, fallback, counters, letters, l);
    }
  }

  /** Drawing for `a + b` draws for `a`, then for `b` from the counters `a` left. */
  lemma {:induction false} DrawAppend(pools: map<string, seq<string>>, fallback: string,
                                      counters: map<string, nat>, a: seq<string>, b: seq<string>)
    requires counters.Keys == pools.Keys
    ensures var da := Draw(pools, fallback, counters, a);
            var db := Draw(pools, fallback, da.counters, b);
            Draw(pools, fallback, counters, a + b) == Draws(da.urls + db.urls, db.counters)
    decreases |b|
  {
    if |b| > 0 {
      var n := |b| - 1;
      DrawAppend(pools, fallback, counters, a, b[..n]);
      assert (a + b)[..|a + b| - 1] == a + b[..n];
      assert (a + b)[|a + b| - 1] == b[n];
    } else {
      assert a + b == a;
    }
  }

  /** The counters once the options of the first `k` items have drawn their
      images, row by row. */
  function CountersBefore(pools: map<string, seq<string>>, fallback: string, counters: map<string, nat>,
                          k: nat): (c: map<string, nat>)
    requires counters.Keys == pools.Keys && k <= ItemCount
    ensures c.Keys == counters.Keys
  {
    if k == 0 then counters
    else Draw(pools, fallback, CountersBefore(pools, fallback, counters, k - 1), CategoryMatrix[k - 1]).counters
  }

  /** Row by row is the same as drawing for all the letters of those rows in
      one run. */
  lemma {:induction false} CountersBeforeIsDraw(pools: map<string, seq<string>>, fallback: string,
                                                counters: map<string, nat>, k: nat)
    requires counters.Keys == pools.Keys && k <= ItemCount
    ensures CountersBefore(pools, fallback, counters, k)
              == Draw(pools, fallback, counters, Flatten(CategoryMatrix[..k])).counters
  {
    if k > 0 {
      CountersBeforeIsDraw(pools, fallback, counters, k - 1);
      FlattenPrefix(CategoryMatrix, k);
      DrawAppend(pools, fallback, counters, Flatten(CategoryMatrix[..k - 1]), CategoryMatrix[k - 1]);
    }
  }

  /** The matrix rows laid end to end, in item order. */
  function Flatten(rows: seq<seq<string>>): seq<string>
    decreases |rows|
  {
    if |rows| == 0 then [] else Flatten(rows[..|rows| - 1]) + rows[|rows| - 1]
  }

  /** The first `k` rows laid end to end are the first `k - 1` followed by row `k - 1`. */
  lemma FlattenPrefix(rows: seq<seq<string>>, k: nat)
    requires 0 < k <= |rows|
    ensures Flatten(rows[..k]) == Flatten(rows[..k - 1]) + rows[k - 1]
  {
    assert rows[..k][..k - 1] == rows[..k - 1];
  }

  /** The six letter keys of the image pools and of the counters. */
  const PoolKeys: set<string> := {"R", "I", "A", "S", "E", "C"}

  /** The image pools (URL lists per letter, discovered on disk, sorted by
      their number) and the per-letter round-robin counters `imageIndexTracker`. */
  class ImageRotator {
    const pools: map<string, seq<string>>
    const fallback: string
    var tracker: map<string, nat>

    ghost predicate Valid()
      reads this
    {
      pools.Keys == PoolKeys && tracker.Keys == PoolKeys
    }

    /** `buildImagePools` creates one pool per letter; the counters start at zero. */
    constructor (pools: map<string, seq<string>>)
      requires pools.Keys == PoolKeys
      ensures Valid()
      ensures this.pools == pools && fallback == FallbackUrl(pools)
      ensures forall l :: l in tracker ==> tracker[l] == 0
    {
      this.pools := pools;
      fallback := FallbackUrl(pools);
      tracker := map["R" := 0, "I" := 0, "A" := 0, "S" := 0, "E" := 0, "C" := 0];
    }

    /** The image an option of letter `letter` may receive: one of its pool
        when the pool has images, the fallback otherwise. */
    predicate ImageFor(letter: string, url: string) {
      if letter in pools && |pools[letter]| > 0 then url in pools[letter] else url == fallback
    }

    /** `getNextImage`: the next URL of `letter`'s pool, round-robin. */
    method GetNextImage(letter: string) returns (url: string)
      requires Valid()
      modifies this
      ensures Valid()
      ensures ImageFor(letter, url)
      ensures letter !in pools || |pools[letter]| == 0 ==>
                url == fallback && tracker == old(tracker)
      ensures letter in pools && |pools[letter]| > 0 ==>
                url == pools[letter][old(tracker)[letter] % |pools[letter]|]
                && tracker == old(tracker)[letter := old(tracker)[letter] + 1]
      ensures NextImage(pools, fallback, old(tracker), letter) == Draws([url], tracker)
    {
      if letter !in pools || |pools[letter]| == 0 {
        return fallback;
      }
      var index := tracker[letter];
      tracker := tracker[letter := index + 1];
      url := pools[letter][index % |pools[letter]|];
    }

    /** One element of `riasecItems`: the item at index `idx`. */
    method BuildItem(idx: nat) returns (item: Item)
      requires idx < ItemCount && Valid()
      modifies this
      ensures Valid()
      ensures ItemShaped(item, idx)
      ensures forall j :: 0 <= j < 3 ==> ImageFor(CategoryMatrix[idx][j], item.options[j].imageUrl)
      ensures var d := Draw(pools, fallback, old(tracker), CategoryMatrix[idx]);
              tracker == d.counters && ImageUrls(item.options) == d.urls
    {
      MatrixWellFormed();
      var options := BuildOptions(idx, CategoryMatrix[idx]);
      item := Item(idx + 1, Prompt(idx), options);
    }

    /** The three options of item `idx + 1`, for the letters of its row, each
        drawing the next image of its letter. */
    method BuildOptions(idx: nat, row: seq<string>) returns (options: seq<ItemOption>)
      requires |row| == 3 && Valid()
      modifies this
      ensures Valid()
      ensures |options| == 3
      ensures forall i :: 0 <= i < 3 ==>
                options[i].id == OptionId(idx + 1, i)
                && options[i].code == row[i]
                && options[i].description == "Represents " + row[i] + " type"
                && ImageFor(row[i], options[i].imageUrl)
      ensures var d := Draw(pools, fallback, old(tracker), row);
              tracker == d.counters && ImageUrls(options) == d.urls
    {
      options := [];
      var j := 0;
      while j < 3
        invariant Valid()
        invariant j <= 3 && |options| == j
        invariant tracker == Draw(pools, fallback, old(tracker), row[..j]).counters
        invariant ImageUrls(options) == Draw(pools, fallback, old(tracker), row[..j]).urls
        invariant forall i :: 0 <= i < j ==>
                    options[i].id == OptionId(idx + 1, i)
                    && options[i].code == row[i]
                    && options[i].description == "Represents " + row[i] + " type"
                    && ImageFor(row[i], options[i].imageUrl)
      {
        DrawStep(pools, fallback, old(tracker), row, j);
        var url := GetNextImage(row[j]);
        ghost var previous := options;
        options := options + [ItemOption(OptionId(idx + 1, j), url, row[j], "Represents " + row[j] + " type")];
        assert ImageUrls(options) == ImageUrls(previous) + [url];
        forall i | 0 <= i < j + 1
          ensures options[i].id == OptionId(idx + 1, i)
                  && options[i].code == row[i]
                  && options[i].description == "Represents " + row[i] + " type"
                  && ImageFor(row[i], options[i].imageUrl)
        {
          if i < j {
            assert options[i] == previous[i];
          }
        }
        j := j + 1;
      }
      assert row[..3] == row;
    }

    /** The item at index `k` as `riasecItems` builds it: shaped from its row,
        each option's image from the pool of its letter. */
    predicate Built(item: Item, k: nat)
      requires k < ItemCount
    {
      ItemShaped(item, k)
      && forall j :: 0 <= j < 3 ==> ImageFor(CategoryMatrix[k][j], item.options[j].imageUrl)
    }

    /** Item `k` is built from its row, with the images drawn from the
        counters the first `k` rows left, starting from `start`. */
    ghost predicate ItemBuilt(item: Item, start: map<string, nat>, k: nat) {
      start.Keys == pools.Keys && k < ItemCount
      && Built(item, k)
      && ImageUrls(item.options)
           == Draw(pools, fallback, CountersBefore(pools, fallback, start, k), CategoryMatrix[k]).urls
    }

    /** Every item so far is built as `ItemBuilt` says. */
    ghost predicate ItemsBuilt(items: seq<Item>, start: map<string, nat>) {
      forall k :: 0 <= k < |items| ==> ItemBuilt(items[k], start, k)
    }

    /** One step of `riasecItems`: the item built for row `k` from the
        counters the first `k` rows left extends the built prefix, and the
        counters it leaves are those the first `k + 1` rows leave. */
    lemma ItemsBuiltStep(items: seq<Item>, item: Item, start: map<string, nat>,
                         before: map<string, nat>, after: map<string, nat>, k: nat)
      requires start.Keys == pools.Keys && k == |items| < ItemCount && ItemsBuilt(items, start)
      requires before == CountersBefore(pools, fallback, start, k)
      requires ItemShaped(item, k)
      requires forall j :: 0 <= j < 3 ==> ImageFor(CategoryMatrix[k][j], item.options[j].imageUrl)
      requires var d := Draw(pools, fallback, before, CategoryMatrix[k]);
               after == d.counters && ImageUrls(item.options) == d.urls
      ensures ItemsBuilt(items + [item], start)
      ensures after == CountersBefore(pools, fallback, start, k + 1)
    {
      var built := (it: Item, i: int) => 0 <= i && ItemBuilt(it, start, i);
      EveryAppend(items, item, built);
    }

    /** `riasecItems`: the 30 quiz items in matrix order, each option's image
        taken from the pool of its letter. */
    method BuildItems() returns (items: seq<Item>)
      requires Valid()
      modifies this
      ensures Valid()
      ensures |items| == ItemCount
      ensures tracker == CountersBefore(pools, fallback, old(tracker), ItemCount)
      ensures ItemsBuilt(items, old(tracker))
    {
      items := [];
      var idx := 0;
      while idx < ItemCount
        invariant Valid()
        invariant idx <= ItemCount && |items| == idx
        invariant tracker == CountersBefore(pools, fallback, old(tracker), idx)
        invariant ItemsBuilt(items, old(tracker))
      {
        ghost var before := tracker;
        var item := BuildItem(idx);
        ItemsBuiltStep(items, item, old(tracker), before, tracker, idx);
        items := items + [item];
        idx := idx + 1;
      }
    }
  }
}
