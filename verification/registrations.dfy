/** A registration document as the export endpoint and the admin dashboard
    read it (the fields of src/endpoints/exportCsvEndpoint.ts:45-62). */
module Registrations {
  import opened Values

  /** The `user` relation, populated: the registrant's name and email. */
  datatype Registrant = NoUser | Registrant(name: Field, email: Field)

  datatype Registration = Registration(
    id: string,
    user: Registrant,
    contactAddress: Field,
    ticketType: Field,
    amount: Number,
    paymentStatus: Field,
    paymentAccountLast5: Field,
    /** Already in `YYYY-MM-DD` form; date arithmetic is not modelled. */
    paymentDate: Field,
    participantRole: Field,
    participantRoleOther: Field,
    presentationType: Field,
    mealDay1: Field,
    mealDay2: Field,
    banquet: Field,
    dietaryPreference: Field,
    dietaryOther: Field,
    remarks: Field,
    /** Already rendered in the `zh-TW` locale; date formatting is not modelled. */
    createdAt: string)
}
