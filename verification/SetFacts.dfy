/** Facts about finite sets and maps used across the project. */
module SetFacts {

  lemma Member<T>(s: set<T>) returns (a: T)
    requires s != {}
    ensures a in s
  {
    a :| a in s;
  }

  lemma Outside<T>(s: set<T>, t: set<T>) returns (a: T)
    requires !(s <= t)
    ensures a in s && a !in t
  {
    a :| a in s && a !in t;
  }
}

module MapFacts {

  lemma ValuesOfInsert<K, V>(m: map<K, V>, k: K, v: V)
    requires k !in m
    ensures m[k := v].Values == m.Values + {v}
  {
    var m' := m[k := v];
    forall w ensures w in m'.Values <==> w in m.Values + {v} {
      if w in m.Values {
        var j :| j in m && m[j] == w;
        assert m'[j] == w;
      }
      if w == v {
        assert m'[k] == w;
      }
    }
  }
}
