/**
 * The process-wide session history store `_session_histories`
 * (flask_app/utils.py) and the `setdefault` it is used through.
 */
module Sessions {

  datatype Role = Human | Ai

  /** One stored conversational message. */
  datatype Message = Message(role: Role, text: string)

  /** A session's chat history: a mutable object shared by everyone holding it. */
  class ChatHistory {
    var messages: seq<Message>

    constructor ()
      ensures messages == []
    {
      messages := [];
    }
  }

  /**
   * Python's `m.setdefault(k, d)` on a value-level dictionary: the dictionary
   * afterwards and the value returned.
   */
  function SetDefault<K, V>(m: map<K, V>, k: K, d: V): (r: (map<K, V>, V))
    ensures k in r.0 && r.1 == r.0[k]
    ensures r.0.Keys == m.Keys + {k}
    ensures forall j :: j in m ==> r.0[j] == m[j]
    ensures k !in m ==> r.1 == d
  {
    if k in m then (m, m[k]) else (m[k := d], d)
  }

  /** A second `setdefault` on the same key returns what the first one did and changes nothing. */
  lemma SetDefaultTwice<K, V>(m: map<K, V>, k: K, d1: V, d2: V)
    ensures var (m1, v1) := SetDefault(m, k, d1);
      SetDefault(m1, k, d2) == (m1, v1)
  {
  }

  /** The module-level dictionary from session id to chat history. */
  class SessionStore {
    var histories: map<string, ChatHistory>

    /**
     * Distinct session ids hold distinct history objects: every entry is
     * inserted with a newly built `ChatMessageHistory()`.
     */
    ghost predicate Valid()
      reads this
    {
      forall a, b :: a in histories && b in histories && a != b ==> histories[a] != histories[b]
    }

    constructor ()
      ensures Valid()
      ensures histories == map[]
    {
      histories := map[];
    }

    /**
     * `_session_histories.setdefault(session_id, ChatMessageHistory())`:
     * an existing history is returned as it is; an unseen id gets a fresh,
     * empty history registered under it; no other entry is added, removed
     * or changed.
     */
    method GetOrCreate(sessionId: string) returns (h: ChatHistory)
      requires Valid()
      modifies this
      ensures Valid()
      ensures (histories, h) == SetDefault(old(histories), sessionId, h)
      ensures sessionId in old(histories) ==> h == old(histories)[sessionId]
      ensures sessionId !in old(histories) ==> fresh(h) && h.messages == []
      ensures forall s :: s in old(histories) ==> histories[s].messages == old(histories[s].messages)
    {
      // The default argument is built on every call, as in Python, and dropped when unused.
      var created := new ChatHistory();
      var (updated, found) := SetDefault(histories, sessionId, created);
      histories, h := updated, found;
    }
  }
}
