/**
 * The message list the chat service sends to the completion API
 * (backend/chat_service.py): a system message, the conversation history and
 * the user's query, and the system prompt built around a ticket's
 * description. The API call itself is not part of this model.
 */
module ChatMessages {
  import opened Outcomes

  datatype Message = Message(role: string, content: string)

  /** One history entry as a dictionary: None stands for an absent key. */
  datatype HistoryEntry = HistoryEntry(role: Option<string>, content: Option<string>)

  const DefaultSystemPrompt: string :=
    "You are a helpful AI assistant specialized in answering questions about RAG systems and document processing."

  /** `{"role": m.get("role", "user"), "content": m.get("content", "")}`. */
  function Copied(e: HistoryEntry): (m: Message)
    ensures e.role.Some? ==> m.role == e.role.value
    ensures e.role.None? ==> m.role == "user"
    ensures e.content.Some? ==> m.content == e.content.value
    ensures e.content.None? ==> m.content == ""
  {
    Message(e.role.GetOr("user"), e.content.GetOr(""))
  }

  /**
   * The system message (the given prompt when truthy, else the default), the
   * history entries in order, then the query as a user message. A missing
   * history counts as an empty one.
   */
  function Messages(query: string, history: Option<seq<HistoryEntry>>, systemPrompt: Option<string>): (m: seq<Message>)
    ensures var h := history.GetOr([]);
            && |m| == |h| + 2
            && (forall i :: 0 <= i < |h| ==> m[i + 1] == Copied(h[i]))
    ensures m[0].role == "system" && m[|m| - 1] == Message("user", query)
    ensures Truthy(systemPrompt) ==> m[0].content == systemPrompt.value
    ensures !Truthy(systemPrompt) ==> m[0].content == DefaultSystemPrompt
  {
    var h := history.GetOr([]);
    var system := Message("system", if Truthy(systemPrompt) then systemPrompt.value else DefaultSystemPrompt);
    [system] + seq(|h|, i requires 0 <= i < |h| => Copied(h[i])) + [Message("user", query)]
  }

  /** Exactly one system message: the first; no history entry or query is placed before it. */
  lemma OneLeadingSystemMessage(query: string, history: seq<HistoryEntry>, systemPrompt: Option<string>)
    requires forall i :: 0 <= i < |history| ==> history[i].role != Some("system")
    ensures var m := Messages(query, Some(history), systemPrompt);
            forall i :: 0 <= i < |m| ==> (m[i].role == "system" <==> i == 0)
  {
    var m := Messages(query, Some(history), systemPrompt);
    forall i | 0 < i < |m| - 1 ensures m[i].role != "system" {
      assert m[i] == Copied(history[i - 1]);
    }
  }

  /** A message written back as a complete history entry. */
  function Entry(m: Message): (e: HistoryEntry)
    ensures Copied(e) == m
  {
    HistoryEntry(Some(m.role), Some(m.content))
  }

  function Entries(ms: seq<Message>): (h: seq<HistoryEntry>)
    ensures |h| == |ms|
    ensures forall i :: 0 <= i < |ms| ==> h[i] == Entry(ms[i])
  {
    seq(|ms|, i requires 0 <= i < |ms| => Entry(ms[i]))
  }

  /**
   * Feeding back a conversation as history reproduces it: the list is the
   * system message, the earlier messages unchanged, then the new query.
   */
  lemma HistoryRoundTrip(query: string, earlier: seq<Message>, systemPrompt: Option<string>)
    ensures var m := Messages(query, Some(Entries(earlier)), systemPrompt);
            m[1..|m| - 1] == earlier
  {
    var m := Messages(query, Some(Entries(earlier)), systemPrompt);
    forall i | 0 <= i < |earlier| ensures m[1..|m| - 1][i] == earlier[i] {
      assert m[i + 1] == Copied(Entries(earlier)[i]);
    }
  }

  /**
   * A follow-up turn: the previous list, minus its system message, with the
   * assistant's reply appended, as the history of the next query, gives the
   * previous list plus the reply and the new query.
   */
  lemma FollowUpExtendsConversation(q1: string, q2: string, reply: string,
                                    history: Option<seq<HistoryEntry>>, systemPrompt: Option<string>)
    ensures var m1 := Messages(q1, history, systemPrompt);
            var turn := m1[1..] + [Message("assistant", reply)];
            Messages(q2, Some(Entries(turn)), systemPrompt) == m1 + [Message("assistant", reply), Message("user", q2)]
  {
    var m1 := Messages(q1, history, systemPrompt);
    var turn := m1[1..] + [Message("assistant", reply)];
    HistoryRoundTrip(q2, turn, systemPrompt);
    var m2 := Messages(q2, Some(Entries(turn)), systemPrompt);
    assert m2 == [m2[0]] + m2[1..|m2| - 1] + [m2[|m2| - 1]];
    assert m1 == [m1[0]] + m1[1..];
  }

  // ---------------------------------------------------------------------------
  // The ticket-assisted prompt

  const TicketPreamble: string :=
    "You are a helpful ticket management assistant. \nYou are helping with a ticket that has the following description:\n\n"

  const TicketClosing: string :=
    "\n\nAs a personal ticketing application helper, your goal is to provide assistance with this ticket.\n"
    + "Respond helpfully to questions about this ticket and suggest next steps or solutions when appropriate.\n"
    + "Be concise but thorough in your responses."

  /** The system prompt for a ticket: its description, verbatim, between fixed text. */
  function TicketPrompt(description: string): (p: string)
    ensures |p| == |TicketPreamble| + |description| + |TicketClosing|
    ensures p[..|TicketPreamble|] == TicketPreamble
    ensures p[|TicketPreamble|..|TicketPreamble| + |description|] == description
    ensures p[|TicketPreamble| + |description|..] == TicketClosing
  {
    TicketPreamble + description + TicketClosing
  }

  lemma ThreeParts(s: string, lo: nat, hi: nat)
    requires lo <= hi <= |s|
    ensures s == s[..lo] + s[lo..hi] + s[hi..]
  {
  }

  /** Reads the description back out of a ticket prompt; None for any other text. */
  function DescriptionOf(prompt: string): (d: Option<string>)
    ensures d.Some? ==> TicketPrompt(d.value) == prompt
  {
    var lo := |TicketPreamble|;
    var tail := |TicketClosing|;
    if |prompt| >= lo + tail && prompt[..lo] == TicketPreamble && prompt[|prompt| - tail..] == TicketClosing then
      var d := prompt[lo..|prompt| - tail];
      ThreeParts(prompt, lo, |prompt| - tail);
      Some(d)
    else None
  }

  /** The description is recoverable from the prompt, so distinct tickets get distinct prompts. */
  lemma {:induction false} DescriptionRoundTrip(description: string)
    ensures DescriptionOf(TicketPrompt(description)) == Some(description)
  {
    var p := TicketPrompt(description);
    var lo := |TicketPreamble|;
    assert p[|p| - |TicketClosing|..] == TicketClosing;
    assert p[lo..|p| - |TicketClosing|] == description;
  }

  /** `generate_ticket_assisted_response`: the ticket prompt as system prompt, the same query and history. */
  function TicketAssistedMessages(query: string, description: string, history: Option<seq<HistoryEntry>>): (m: seq<Message>)
    ensures |m| >= 2 && m[0] == Message("system", TicketPrompt(description))
  {
    Messages(query, history, Some(TicketPrompt(description)))
  }

  /** The ticket-assisted list differs from the plain one only in its system message. */
  lemma TicketAssistedKeepsConversation(query: string, description: string, history: Option<seq<HistoryEntry>>,
                                        systemPrompt: Option<string>)
    ensures var m := TicketAssistedMessages(query, description, history);
            m[1..] == Messages(query, history, systemPrompt)[1..]
  {
    var h := history.GetOr([]);
    var m := TicketAssistedMessages(query, description, history);
    var plain := Messages(query, history, systemPrompt);
    assert |m| == |plain| == |h| + 2;
    forall i | 1 <= i < |m| ensures m[i] == plain[i] {
      if i < |m| - 1 {
        assert m[i] == Copied(h[i - 1]) == plain[i];
      }
    }
    assert m[1..] == plain[1..];
  }
}
