/**
 * The `number_sequences` table: the last number issued, per document kind and
 * carrier (UNIQUE(tipo, transportadoraId)). A key is absent until its first
 * allocation.
 */
module Sequences {

  type Key = (string, int)

  class SequenceTable {
    var counters: map<Key, int>

    constructor ()
      ensures counters == map[]
    {
      counters := map[];
    }

    /** The upsert: insert the key with `last`, or overwrite its value. */
    method Upsert(key: Key, last: int)
      modifies this
      ensures counters == old(counters)[key := last]
    {
      counters := counters[key := last];
    }
  }
}
