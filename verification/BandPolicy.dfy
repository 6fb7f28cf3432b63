/** What the regulatory bands allow (security/__init__.py). */
module BandPolicy {

  datatype BandType = UNKNOWN | AMATEUR | ISM | LICENSED | NTN | RECEIVE_ONLY

  predicate TxAllowed(band: BandType) { band !in {UNKNOWN, RECEIVE_ONLY} }

  predicate EncryptionAllowed(band: BandType) { band in {ISM, LICENSED, NTN} }
}
