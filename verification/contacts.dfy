/** The authority to contact for an issue type, with a default entry. */
module Contacts {
  import Reports

  datatype Contact = Contact(name: string, phone: string, description: string)

  const DefaultContact: Contact := Contact(
    "Local Environmental Department",
    "Check your local government website",
    "For general environmental concerns")

  const AuthorityContacts: map<string, Contact> := map[
    "noise" := Contact("Local Police Department",
                       "911 (Emergency) or Local Non-Emergency",
                       "For excessive noise complaints, especially during quiet hours"),
    "air-quality" := Contact("Environmental Protection Agency (EPA)",
                             "1-800-424-8802",
                             "For air pollution and emissions violations"),
    "water" := Contact("EPA Water Division",
                       "1-800-426-4791",
                       "For water pollution and contamination issues"),
    "chemical" := Contact("EPA Emergency Response",
                          "1-800-424-8802",
                          "For chemical spills and hazardous material incidents"),
    "waste" := Contact("Local Waste Management",
                       "Check your local government website",
                       "For illegal dumping and waste management issues"),
    "default" := DefaultContact
  ]

  /** `AUTHORITY_CONTACTS[issueType] || AUTHORITY_CONTACTS.default`. */
  function GetAuthorityContact(issueType: string): (c: Contact)
    ensures c in AuthorityContacts.Values
  {
    if issueType in AuthorityContacts then AuthorityContacts[issueType] else AuthorityContacts["default"]
  }

  /**
   * The default entry is returned exactly for the keys that have no entry of
   * their own; every listed key gets its own entry.
   */
  lemma DefaultExactlyForUnlisted(issueType: string)
    ensures GetAuthorityContact(issueType) == DefaultContact <==>
            issueType !in AuthorityContacts || issueType == "default"
    ensures issueType in AuthorityContacts ==> GetAuthorityContact(issueType) == AuthorityContacts[issueType]
  {
  }

  /**
   * Of the report form's issue categories, exactly heat, truck traffic, odor,
   * light, construction, wildlife and vegetation fall back to the default contact.
   */
  lemma IssueOptionsUsingDefault()
    ensures forall i :: 0 <= i < |Reports.IssueOptions| ==>
      (GetAuthorityContact(Reports.IssueOptions[i].key) == DefaultContact <==>
       Reports.IssueOptions[i].key in ["heat", "truck-traffic", "odor", "light", "construction", "wildlife", "vegetation"])
  {
  }
}
