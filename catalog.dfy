/**
 * The fixed catalog of titles the diary can log (app.py, DOVZHENKO_TOP_100).
 * It is an ordered, immutable list; the entry form offers exactly these titles.
 */
module Catalog {

  const Titles: seq<string> := [
    "Земля (1930)",
    "Тіні забутих предків (1964)",
    "Людина з кіноапаратом (1929)",
    "Ентузіязм (1931)",
    "Криниця для спраглих (1965)",
    "Вавилон ХХ (1979)",
    "Білий птах з чорною ознакою (1971)",
    "Пропала грамота (1972)",
    "Камінний хрест (1968)",
    "Поводир (2014)",
    "Плем'я (2014)",
    "Мої думки тихі (2019)",
    "Захар Беркут (1971)",
    "Атлантида (2019)",
    "Кіборги (2017)"
  ]

  /** set(DOVZHENKO_TOP_100) */
  function TitleSet(): (titles: set<string>)
    ensures forall t :: t in titles <==> t in Titles
    ensures |titles| <= |Titles|
  {
    ImageCardinality(Titles);
    Elements(Titles)
  }

  /** The set of elements of a list. */
  function Elements<T>(s: seq<T>): set<T>
  {
    set i | 0 <= i < |s| :: s[i]
  }

  ghost predicate Distinct<T>(s: seq<T>)
  {
    forall i, j :: 0 <= i < j < |s| ==> s[i] != s[j]
  }

  /** The elements of a non-empty list are those of all but its last entry, plus the last. */
  lemma ImageOfSnoc<T>(s: seq<T>)
    requires s != []
    ensures Elements(s) == Elements(s[..|s| - 1]) + {s[|s| - 1]}
  {
    var n := |s| - 1;
    var prefix := s[..n];
    var before := Elements(prefix);
    var all := Elements(s);
    forall x | x in all ensures x in before + {s[n]} {
      var i :| 0 <= i < |s| && s[i] == x;
      if i < n { assert prefix[i] == x; }
    }
    forall x | x in before ensures x in all {
      var i :| 0 <= i < |prefix| && prefix[i] == x;
      assert s[i] == x;
    }
  }

  /** A list has at most as many distinct elements as entries. */
  lemma {:induction false} ImageCardinality<T>(s: seq<T>)
    ensures |Elements(s)| <= |s|
  {
    if s != [] {
      ImageCardinality(s[..|s| - 1]);
      ImageOfSnoc(s);
    }
  }

  /** A list without repeated elements has as many distinct elements as entries. */
  lemma {:induction false} DistinctCardinality<T>(s: seq<T>)
    requires Distinct(s)
    ensures |Elements(s)| == |s|
  {
    if s != [] {
      var n := |s| - 1;
      var prefix := s[..n];
      assert Distinct(prefix) by {
        forall i, j | 0 <= i < j < |prefix| ensures prefix[i] != prefix[j] {
          assert prefix[i] == s[i] && prefix[j] == s[j];
        }
      }
      DistinctCardinality(prefix);
      ImageOfSnoc(s);
      assert s[n] !in Elements(prefix);
    }
  }

  /** The catalog literal repeats no title, so the catalog holds 15 titles. */
  lemma CatalogSize()
    ensures Distinct(Titles)
    ensures |TitleSet()| == |Titles| == 15
  {
    assert Distinct(Titles);
    DistinctCardinality(Titles);
  }
}
