
/**
 * The salon's own answer texts and the module-level entry points that use them. Kept apart
 * from the generic lookup and prompt text of `SalonContext`, which do not depend on them.
 */
module SalonKnowledgeBase {
  import opened SalonContext

  /** The answer texts of `INITIAL_KNOWLEDGE_BASE`, in the same order as the keys. */
  const TopicAnswers: seq<string> := [
    // hours
    "Monday to Saturday: 9 AM to 7 PM. Sunday: 10 AM to 5 PM. We're closed on major holidays.",
    // services
    "We offer a wide range of services:\n    \U{2022} Hair cutting and styling\n    \U{2022} Hair coloring and highlights\n    \U{2022} Hair treatments and masks\n    \U{2022} Hair extensions\n    \U{2022} Perms and relaxing treatments\n    \U{2022} Blow-dry services\n    \U{2022} Wedding and event styling\n    \U{2022} Children's haircuts",
    // prices
    "Our pricing:\n    \U{2022} Haircuts: Starting from $45 (may vary based on length/complexity)\n    \U{2022} Hair coloring: Starting from $85 (includes root touch-ups)\n    \U{2022} Styling: Starting from $35\n    \U{2022} Hair treatments: Starting from $25\n    \U{2022} Hair extensions: Starting from $150\n    \U{2022} Please call for custom pricing on special services",
    // location
    "Beautiful Hair Salon, 123 Beauty Lane, Downtown District, City. Easy to find with plenty of parking!",
    // address
    "123 Beauty Lane, Downtown District, City",
    // phone
    "(555) 123-4567 - Call us anytime during business hours",
    // website
    "Visit us at beautyhairsalon.com for more information",
    // booking
    "You can book an appointment in three ways:\n    1. Online at beautyhairsalon.com\n    2. Call us at (555) 123-4567\n    3. Walk in (we always welcome walk-ins, but appointments are recommended)",
    // parking
    "Free parking is available in our building lot. No validation needed!",
    // walk_ins
    "Walk-ins are absolutely welcome! However:\n    \U{2022} Appointments are recommended for shorter wait times\n    \U{2022} During peak hours (Saturdays, evenings), we may have a wait\n    \U{2022} Call ahead if you're not sure about availability",
    // parking_paid
    "No! Parking is completely free for our customers. No validation or payment required.",
    // contact
    "Call us at (555) 123-4567, email salon@example.com, or visit our website at beautyhairsalon.com",
    // appointment_reschedule
    "To reschedule an appointment, please call us at (555) 123-4567 or go to beautyhairsalon.com",
    // cancellation_policy
    "We ask for 24 hours notice for cancellations to avoid cancellation fees. Call (555) 123-4567 to cancel.",
    // payment_methods
    "We accept cash, credit cards (Visa, Mastercard, American Express), and digital payments like Apple Pay",
    // gift_cards
    "Yes! We offer gift cards in various amounts. Call (555) 123-4567 or visit us in person to purchase.",
    // first_time_customer
    "Welcome! For first-time customers:\n    \U{2022} No appointment needed, but recommended\n    \U{2022} Call (555) 123-4567 to discuss your needs with our stylists\n    \U{2022} Allow 15 minutes extra for consultation\n    \U{2022} We accept all major payment methods",
    // special_occasions
    "For special occasions (weddings, proms, etc.):\n    \U{2022} Call us at (555) 123-4567 to book a consultation\n    \U{2022} Bookings are recommended at least 2 weeks in advance\n    \U{2022} We can discuss your vision and create a perfect look",
    // color_consultation
    "Our color specialists offer:\n    \U{2022} Free color consultations\n    \U{2022} Custom color matching\n    \U{2022} Color correction services\n    \U{2022} Call (555) 123-4567 to book a consultation",
    // membership
    "Ask about our loyalty program when you visit! We offer rewards for regular customers."
  ]

  /** `INITIAL_KNOWLEDGE_BASE`: topic key and answer text, in insertion order. */
  const InitialKnowledgeBase: seq<(string, string)> := Pairs(TopicKeys, TopicAnswers)

  /** What `get_quick_answer` returns for `query`. */
  function QuickAnswer(query: string): string {
    Lookup(TopicKeys, TopicAnswers, query)
  }

  /** `get_quick_answer` over the initial knowledge base. */
  method GetQuickAnswer(query: string) returns (answer: string)
    ensures answer == QuickAnswer(query)
  {
    answer := FindQuickAnswer(TopicKeys, TopicAnswers, query);
  }

  /** `get_knowledge_base_string` over the initial knowledge base. */
  method GetKnowledgeBaseString() returns (kbStr: string)
    ensures kbStr == Header + Blocks(InitialKnowledgeBase)
  {
    kbStr := BuildKnowledgeString(InitialKnowledgeBase);
  }

  /** `format_knowledge_for_prompt`: the same text. */
  method FormatKnowledgeForPrompt() returns (text: string)
    ensures text == Header + Blocks(InitialKnowledgeBase)
  {
    text := GetKnowledgeBaseString();
  }

  /** `get_knowledge_base_dict`: a copy of the initial knowledge base, entries in order. */
  function GetKnowledgeBaseDict(): (d: seq<(string, string)>)
    ensures Keys(d) == TopicKeys
  {
    PairsKeys(TopicKeys, TopicAnswers);
    InitialKnowledgeBase
  }
}
