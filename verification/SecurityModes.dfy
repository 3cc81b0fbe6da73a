/** The two security capabilities of src/sepp_app/sepp_n32c_handshake.cpp:29-30. */
module SecurityModes {
  import opened Octets

  const PRINS: Text := "PRINS"
  const TLS: Text := "TLS"
}
