/** The protocol constants of client/mysql/Server.go: response markers, command
    codes and the capability set the client advertises. */
module Protocol {
  import opened Wire

  const MinProtocolVersion: byte := 10

  /** First byte of an OK_Packet (and of every binlog event in the dump stream). */
  const OkHeader: byte := 0x00
  /** First byte of an ERR_Packet. */
  const ErrHeader: byte := 0xff
  /** First byte of an EOF_Packet. */
  const EofHeader: byte := 0xfe
  const LocalInFile: byte := 0xfb

  const ComQuit: byte := 0x01
  const ComQuery: byte := 0x03
  const ComBinlogDump: byte := 0x12
  const ComRegisterSlave: byte := 0x15

  /** Character set id 33 (utf8_general_ci) sent in the handshake response. */
  const CharsetUtf8: byte := 33

  const ClientLongPassword: nat := 0x1
  const ClientLongFlag: nat := 0x4
  const ClientLocalFiles: nat := 0x80
  const ClientProtocol41: nat := 0x200
  const ClientSsl: nat := 0x800
  const ClientTransactions: nat := 0x2000
  const ClientSecureConnection: nat := 0x8000
  const ClientMultiStatements: nat := 0x1_0000
  const ClientMultiResults: nat := 0x2_0000
  const ClientPsMultiResults: nat := 0x4_0000
  const ClientPluginAuth: nat := 0x8_0000

  /** The capability flags hard-coded in the handshake response. */
  const ClientCapabilities: nat := 500357

  /** The hard-coded capability word is exactly the nine named flags: it omits
      CLIENT_SSL and CLIENT_PLUGIN_AUTH, so only the legacy scramble can be used. */
  lemma CapabilitiesAreNamedFlags()
    ensures ClientCapabilities == ClientLongPassword + ClientLongFlag + ClientLocalFiles
      + ClientProtocol41 + ClientTransactions + ClientSecureConnection
      + ClientMultiStatements + ClientMultiResults + ClientPsMultiResults
    ensures (ClientCapabilities / ClientSsl) % 2 == 0
    ensures (ClientCapabilities / ClientPluginAuth) % 2 == 0
    ensures (ClientCapabilities / ClientProtocol41) % 2 == 1
    ensures (ClientCapabilities / ClientSecureConnection) % 2 == 1
  {
  }
}
